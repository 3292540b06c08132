/** The records an import produces, the typed rows of the four data sheets, and
    the per-row rule of each sheet of TemplateService.HandleImportData: which
    records and vocabulary entries the row resolves to by name, and which
    record an accepted row appends. */
module ImportRules {
  import opened Common
  import opened ConfigData
  import opened Sheet

  // Records built by the import.

  datatype Concept = Concept(conceptId: Guid, title: string, description: string,
                             dictionaryId: Guid, createdDate: DateTime)

  datatype ConceptRelationship = ConceptRelationship(conceptId: Guid, parentId: Guid, conceptLinkId: Guid,
                                                     dictionaryId: Guid, createdDate: DateTime)

  datatype Example = Example(exampleId: Guid, detail: string, detailHtml: string,
                             toneId: Option<Guid>, modeId: Option<Guid>, registerId: Option<Guid>,
                             nuanceId: Option<Guid>, dialectId: Option<Guid>,
                             note: string, dictionaryId: Guid, createdDate: DateTime)

  datatype ExampleRelationship = ExampleRelationship(conceptId: Guid, exampleId: Guid, exampleLinkId: Guid,
                                                     dictionaryId: Guid, createdDate: DateTime)

  // Typed rows of the four data sheets. A null cell reads as "".

  datatype ConceptImport = ConceptImport(title: string, description: string)

  datatype ConceptRelationshipImport = ConceptRelationshipImport(childName: string, parentName: string,
                                                                 conceptLinkName: string)

  datatype ExampleImport = ExampleImport(detailHtml: string, toneName: string, modeName: string,
                                         registerName: string, nuanceName: string, dialectName: string,
                                         note: string)

  datatype ExampleRelationshipImport = ExampleRelationshipImport(concept: string, exampleHtml: string,
                                                                 exampleLinkName: string)

  /** The rows' ValidateBusinessMater methods: each sees the row, the records of
      its own sheet accepted so far and what the row's names resolved to. */
  datatype Validators = Validators(
    concept: (Row<ConceptImport>, seq<Concept>) -> ValidateResult,
    conceptRel: (Row<ConceptRelationshipImport>, seq<ConceptRelationship>,
                 Option<Concept>, Option<Concept>, Option<LinkItem>) -> ValidateResult,
    example: (Row<ExampleImport>, seq<Example>, Option<VocabItem>, Option<VocabItem>,
              Option<VocabItem>, Option<VocabItem>, Option<VocabItem>) -> ValidateResult,
    exampleRel: (Row<ExampleRelationshipImport>, seq<ExampleRelationship>,
                 Option<Concept>, Option<Example>, Option<LinkItem>) -> ValidateResult)

  /** An optional name is either blank or was found. */
  predicate Resolved(name: string, found: Option<VocabItem>)
  {
    name == "" || found.Some?
  }

  /** Validation treats an unresolved reference as a failure: a row judged valid
      had every name it dereferences resolved. */
  ghost predicate ValidatorsSound(v: Validators)
  {
    (forall row, acc, child, parent, link ::
       v.conceptRel(row, acc, child, parent, link).isValid ==> child.Some? && parent.Some? && link.Some?) &&
    (forall row: Row<ExampleImport>, acc, tone, mode, register, nuance, dialect ::
       v.example(row, acc, tone, mode, register, nuance, dialect).isValid ==>
         Resolved(row.data.toneName, tone) && Resolved(row.data.modeName, mode) &&
         Resolved(row.data.registerName, register) && Resolved(row.data.nuanceName, nuance) &&
         Resolved(row.data.dialectName, dialect)) &&
    (forall row, acc, concept, example, link ::
       v.exampleRel(row, acc, concept, example, link).isValid ==> concept.Some? && example.Some? && link.Some?)
  }

  // Lookups by natural key: List<T>.Find on the given list.

  /** The natural key of a concept. */
  function ConceptTitle(c: Concept): string { c.title }

  /** The natural key of an example. */
  function ExampleHtml(e: Example): string { e.detailHtml }

  /** `lstConcept.Find(x => x.Title == title)`. */
  function FindConcept(concepts: seq<Concept>, title: string): Option<Concept>
  {
    FindBy(concepts, ConceptTitle, title)
  }

  /** `lstExample.Find(x => x.DetailHtml == html)`. */
  function FindExample(examples: seq<Example>, html: string): Option<Example>
  {
    FindBy(examples, ExampleHtml, html)
  }

  /** `ListConceptLink.Find(x => x.concept_link_name == name)` and its example-link twin. */
  function FindLink(links: seq<LinkItem>, name: string): Option<LinkItem>
  {
    FindBy(links, LinkName, name)
  }

  /** `ListTone.Find(x => x.tone_name == name)` and its siblings. */
  function FindVocab(items: seq<VocabItem>, name: string): Option<VocabItem>
  {
    FindBy(items, VocabName, name)
  }

  /** A tag id built from a name and its lookup: null exactly for a blank name,
      otherwise the id of the entry found. */
  predicate TagOf(id: Option<Guid>, name: string, found: Option<VocabItem>)
  {
    (id.None? <==> name == "") && (id.Some? ==> found.Some? && id.value == found.value.id)
  }

  /** `string.IsNullOrEmpty(name) ? null : found.id`. */
  function OptionalId(name: string, found: Option<VocabItem>): (r: Option<Guid>)
    requires Resolved(name, found)
    ensures r.None? <==> name == ""
    ensures r.Some? ==> found.Some? && r.value == found.value.id
  {
    if name == "" then None else Some(found.value.id)
  }

  // The per-row rule of each sheet. A rule that is handed validators judging a
  // row valid with a name unresolved rejects the row; under ValidatorsSound
  // that case does not arise.

  /** Concept sheet: a valid row appends a concept with the next fresh id. */
  function ConceptVerdict(v: Validators, dictId: Guid, now: DateTime, firstId: Guid,
                          row: Row<ConceptImport>, accepted: seq<Concept>): (r: Decision<Concept>)
    ensures r.Accept? <==> v.concept(row, accepted).isValid
    ensures r.Accept? ==>
      r.record.conceptId == firstId + |accepted| && r.record.title == row.data.title &&
      r.record.description == row.data.description && r.record.dictionaryId == dictId && r.record.createdDate == now
    ensures r.Reject? ==> r.result == v.concept(row, accepted)
  {
    var res := v.concept(row, accepted);
    if res.isValid then Accept(Concept(firstId + |accepted|, row.data.title, row.data.description, dictId, now))
    else Reject(res)
  }

  /** Concept-relationship sheet: child and parent resolved by title among the
      accepted concepts, the link type by name in the configuration. */
  function ConceptRelVerdict(v: Validators, links: seq<LinkItem>, concepts: seq<Concept>, dictId: Guid, now: DateTime,
                             row: Row<ConceptRelationshipImport>, accepted: seq<ConceptRelationship>)
    : Decision<ConceptRelationship>
  {
    var child := FindConcept(concepts, row.data.childName);
    var parent := FindConcept(concepts, row.data.parentName);
    var link := FindLink(links, row.data.conceptLinkName);
    var res := v.conceptRel(row, accepted, child, parent, link);
    if res.isValid && child.Some? && parent.Some? && link.Some? then
      Accept(ConceptRelationship(child.value.conceptId, parent.value.conceptId, link.value.id, dictId, now))
    else Reject(res)
  }

  /** What the concept-relationship rule decides: a row is accepted exactly when
      the validator passes it and its child, parent and link type are all found,
      and then yields the relationship of their ids; otherwise it carries the
      validator's verdict. */
  lemma ConceptRelDecision(v: Validators, links: seq<LinkItem>, concepts: seq<Concept>, dictId: Guid, now: DateTime,
                           row: Row<ConceptRelationshipImport>, accepted: seq<ConceptRelationship>)
    ensures var r := ConceptRelVerdict(v, links, concepts, dictId, now, row, accepted);
      var child := FindConcept(concepts, row.data.childName);
      var parent := FindConcept(concepts, row.data.parentName);
      var link := FindLink(links, row.data.conceptLinkName);
      var res := v.conceptRel(row, accepted, child, parent, link);
      (r.Accept? <==> res.isValid && child.Some? && parent.Some? && link.Some?) &&
      (r.Accept? ==> r.record.conceptId == child.value.conceptId && r.record.parentId == parent.value.conceptId &&
                     r.record.conceptLinkId == link.value.id &&
                     r.record.dictionaryId == dictId && r.record.createdDate == now) &&
      (r.Reject? ==> r.result == res)
  {
  }

  /** The example a valid row yields: the plain-text detail derived from the
      rich text, each tag null when its name is blank. */
  function ExampleRecord(id: Guid, d: ExampleImport, tone: Option<VocabItem>, mode: Option<VocabItem>,
                         register: Option<VocabItem>, nuance: Option<VocabItem>, dialect: Option<VocabItem>,
                         stripHtml: string -> string, dictId: Guid, now: DateTime): (e: Example)
    requires Resolved(d.toneName, tone) && Resolved(d.modeName, mode) && Resolved(d.registerName, register)
    requires Resolved(d.nuanceName, nuance) && Resolved(d.dialectName, dialect)
    ensures e.exampleId == id && e.dictionaryId == dictId && e.createdDate == now
    ensures e.detailHtml == d.detailHtml && e.detail == stripHtml(d.detailHtml) && e.note == d.note
    ensures TagOf(e.toneId, d.toneName, tone) && TagOf(e.modeId, d.modeName, mode) &&
            TagOf(e.registerId, d.registerName, register) && TagOf(e.nuanceId, d.nuanceName, nuance) &&
            TagOf(e.dialectId, d.dialectName, dialect)
  {
    Example(id, stripHtml(d.detailHtml), d.detailHtml,
            OptionalId(d.toneName, tone), OptionalId(d.modeName, mode),
            OptionalId(d.registerName, register), OptionalId(d.nuanceName, nuance),
            OptionalId(d.dialectName, dialect), d.note, dictId, now)
  }

  /** Example sheet: the five optional tags resolved by name; a valid row appends
      an example with the next fresh id. */
  function ExampleVerdict(v: Validators, config: RawConfig, stripHtml: string -> string,
                          dictId: Guid, now: DateTime, firstId: Guid,
                          row: Row<ExampleImport>, accepted: seq<Example>): Decision<Example>
  {
    var d := row.data;
    var tone := FindVocab(config.tones, d.toneName);
    var mode := FindVocab(config.modes, d.modeName);
    var register := FindVocab(config.registers, d.registerName);
    var nuance := FindVocab(config.nuances, d.nuanceName);
    var dialect := FindVocab(config.dialects, d.dialectName);
    var res := v.example(row, accepted, tone, mode, register, nuance, dialect);
    if res.isValid && Resolved(d.toneName, tone) && Resolved(d.modeName, mode)
       && Resolved(d.registerName, register) && Resolved(d.nuanceName, nuance)
       && Resolved(d.dialectName, dialect)
    then Accept(ExampleRecord(firstId + |accepted|, d, tone, mode, register, nuance, dialect, stripHtml, dictId, now))
    else Reject(res)
  }

  /** What the example rule decides: a row is accepted exactly when the
      validator passes it and every non-blank tag name is found, and then
      yields the example with the next fresh id; otherwise it carries the
      validator's verdict. */
  lemma ExampleDecision(v: Validators, config: RawConfig, stripHtml: string -> string,
                        dictId: Guid, now: DateTime, firstId: Guid,
                        row: Row<ExampleImport>, accepted: seq<Example>)
    ensures var r := ExampleVerdict(v, config, stripHtml, dictId, now, firstId, row, accepted);
      var d := row.data;
      var tone := FindVocab(config.tones, d.toneName);
      var mode := FindVocab(config.modes, d.modeName);
      var register := FindVocab(config.registers, d.registerName);
      var nuance := FindVocab(config.nuances, d.nuanceName);
      var dialect := FindVocab(config.dialects, d.dialectName);
      var res := v.example(row, accepted, tone, mode, register, nuance, dialect);
      (r.Accept? <==> res.isValid && Resolved(d.toneName, tone) && Resolved(d.modeName, mode) &&
                      Resolved(d.registerName, register) && Resolved(d.nuanceName, nuance) &&
                      Resolved(d.dialectName, dialect)) &&
      (r.Accept? ==> r.record.exampleId == firstId + |accepted| && r.record.dictionaryId == dictId &&
                     r.record.createdDate == now && r.record.detailHtml == d.detailHtml &&
                     r.record.detail == stripHtml(d.detailHtml) && r.record.note == d.note &&
                     TagOf(r.record.toneId, d.toneName, tone) && TagOf(r.record.modeId, d.modeName, mode) &&
                     TagOf(r.record.registerId, d.registerName, register) &&
                     TagOf(r.record.nuanceId, d.nuanceName, nuance) &&
                     TagOf(r.record.dialectId, d.dialectName, dialect)) &&
      (r.Reject? ==> r.result == res)
  {
  }

  /** Example-relationship sheet: the concept resolved by title, the example by
      its rich-text detail, the link type by name. */
  function ExampleRelVerdict(v: Validators, links: seq<LinkItem>, concepts: seq<Concept>, examples: seq<Example>,
                             dictId: Guid, now: DateTime,
                             row: Row<ExampleRelationshipImport>, accepted: seq<ExampleRelationship>)
    : Decision<ExampleRelationship>
  {
    var concept := FindConcept(concepts, row.data.concept);
    var example := FindExample(examples, row.data.exampleHtml);
    var link := FindLink(links, row.data.exampleLinkName);
    var res := v.exampleRel(row, accepted, concept, example, link);
    if res.isValid && concept.Some? && example.Some? && link.Some? then
      Accept(ExampleRelationship(concept.value.conceptId, example.value.exampleId, link.value.id, dictId, now))
    else Reject(res)
  }

  /** What the example-relationship rule decides: a row is accepted exactly
      when the validator passes it and its concept, example and link type are
      all found, and then yields the relationship of their ids; otherwise it
      carries the validator's verdict. */
  lemma ExampleRelDecision(v: Validators, links: seq<LinkItem>, concepts: seq<Concept>, examples: seq<Example>,
                           dictId: Guid, now: DateTime,
                           row: Row<ExampleRelationshipImport>, accepted: seq<ExampleRelationship>)
    ensures var r := ExampleRelVerdict(v, links, concepts, examples, dictId, now, row, accepted);
      var concept := FindConcept(concepts, row.data.concept);
      var example := FindExample(examples, row.data.exampleHtml);
      var link := FindLink(links, row.data.exampleLinkName);
      var res := v.exampleRel(row, accepted, concept, example, link);
      (r.Accept? <==> res.isValid && concept.Some? && example.Some? && link.Some?) &&
      (r.Accept? ==> r.record.conceptId == concept.value.conceptId && r.record.exampleId == example.value.exampleId &&
                     r.record.exampleLinkId == link.value.id &&
                     r.record.dictionaryId == dictId && r.record.createdDate == now) &&
      (r.Reject? ==> r.result == res)
  {
  }

  /** Under sound validators an example row's verdict is decided by the
      validator's answer alone: valid yields the example, invalid the error. */
  lemma ExampleVerdictByResult(v: Validators, config: RawConfig, stripHtml: string -> string,
                               dictId: Guid, now: DateTime, firstId: Guid,
                               row: Row<ExampleImport>, accepted: seq<Example>)
    requires ValidatorsSound(v)
    ensures var d := row.data;
      var tone := FindVocab(config.tones, d.toneName);
      var mode := FindVocab(config.modes, d.modeName);
      var register := FindVocab(config.registers, d.registerName);
      var nuance := FindVocab(config.nuances, d.nuanceName);
      var dialect := FindVocab(config.dialects, d.dialectName);
      var res := v.example(row, accepted, tone, mode, register, nuance, dialect);
      if res.isValid then
        Resolved(d.toneName, tone) && Resolved(d.modeName, mode) && Resolved(d.registerName, register) &&
        Resolved(d.nuanceName, nuance) && Resolved(d.dialectName, dialect) &&
        ExampleVerdict(v, config, stripHtml, dictId, now, firstId, row, accepted) ==
          Accept(ExampleRecord(firstId + |accepted|, d, tone, mode, register, nuance, dialect, stripHtml, dictId, now))
      else ExampleVerdict(v, config, stripHtml, dictId, now, firstId, row, accepted) == Reject(res)
  {
  }

  // The rules as the sheet pass takes them.

  function ConceptDecide(v: Validators, dictId: Guid, now: DateTime, firstId: Guid)
    : (Row<ConceptImport>, seq<Concept>) -> Decision<Concept>
  {
    (row, accepted) => ConceptVerdict(v, dictId, now, firstId, row, accepted)
  }

  function ConceptRelDecide(v: Validators, links: seq<LinkItem>, concepts: seq<Concept>, dictId: Guid, now: DateTime)
    : (Row<ConceptRelationshipImport>, seq<ConceptRelationship>) -> Decision<ConceptRelationship>
  {
    (row, accepted) => ConceptRelVerdict(v, links, concepts, dictId, now, row, accepted)
  }

  function ExampleDecide(v: Validators, config: RawConfig, stripHtml: string -> string,
                         dictId: Guid, now: DateTime, firstId: Guid)
    : (Row<ExampleImport>, seq<Example>) -> Decision<Example>
  {
    (row, accepted) => ExampleVerdict(v, config, stripHtml, dictId, now, firstId, row, accepted)
  }

  function ExampleRelDecide(v: Validators, links: seq<LinkItem>, concepts: seq<Concept>, examples: seq<Example>,
                            dictId: Guid, now: DateTime)
    : (Row<ExampleRelationshipImport>, seq<ExampleRelationship>) -> Decision<ExampleRelationship>
  {
    (row, accepted) => ExampleRelVerdict(v, links, concepts, examples, dictId, now, row, accepted)
  }

  // What each sheet's pass yields.

  /** An optional tag id is null exactly for a blank name, and otherwise the id
      of the first vocabulary entry with that name. */
  predicate TagMatches(id: Option<Guid>, items: seq<VocabItem>, name: string)
  {
    (id.None? <==> name == "") &&
    (id.Some? ==> exists j :: 0 <= j < |items| && items[j].name == name && items[j].id == id.value &&
                    forall l :: 0 <= l < j ==> items[l].name != name)
  }

  /** Some record of `concepts` has this id. */
  predicate HasConcept(concepts: seq<Concept>, id: Guid)
  {
    exists c :: c in concepts && c.conceptId == id
  }

  /** Some record of `examples` has this id. */
  predicate HasExample(examples: seq<Example>, id: Guid)
  {
    exists e :: e in examples && e.exampleId == id
  }

  /** Some entry of `links` has this id. */
  predicate HasLink(links: seq<LinkItem>, id: Guid)
  {
    exists l :: l in links && l.id == id
  }

  /** The k-th accepted concept carries the k-th fresh id, the target
      dictionary and the shared time. */
  lemma ConceptIds(v: Validators, dictId: Guid, now: DateTime, firstId: Guid,
                   sheetIndex: int, sheetName: string, rows: seq<Row<ConceptImport>>, acc: seq<Concept>)
    requires acc == Run(ConceptDecide(v, dictId, now, firstId), sheetIndex, sheetName, rows).accepted
    ensures forall k :: 0 <= k < |acc| ==>
        acc[k].conceptId == firstId + k && acc[k].dictionaryId == dictId && acc[k].createdDate == now
  {
    var decide := ConceptDecide(v, dictId, now, firstId);
    forall k | 0 <= k < |acc|
      ensures acc[k].conceptId == firstId + k && acc[k].dictionaryId == dictId && acc[k].createdDate == now
    {
      var i := RunOriginAt(decide, sheetIndex, sheetName, rows, k);
      assert ConceptVerdict(v, dictId, now, firstId, rows[i], acc[..k]) == Accept(acc[k]);
    }
  }

  /** Concept sheet: every row is accepted exactly when its validation passes;
      the k-th accepted concept carries the k-th fresh id, the target
      dictionary, the shared time and the title and description of a row that
      validated against the concepts accepted before it. */
  lemma ConceptSheet(v: Validators, dictId: Guid, now: DateTime, firstId: Guid,
                     sheetIndex: int, sheetName: string, rows: seq<Row<ConceptImport>>)
    ensures var decide := ConceptDecide(v, dictId, now, firstId);
      var s := Run(decide, sheetIndex, sheetName, rows);
      |s.accepted| + |s.errors| == |rows| &&
      (forall i :: 0 <= i < |rows| ==>
         (Verdict(decide, sheetIndex, sheetName, rows, i).Accept? <==>
          v.concept(rows[i], Run(decide, sheetIndex, sheetName, rows[..i]).accepted).isValid)) &&
      forall k :: 0 <= k < |s.accepted| ==>
        s.accepted[k].conceptId == firstId + k && s.accepted[k].dictionaryId == dictId &&
        s.accepted[k].createdDate == now &&
        exists i :: 0 <= i < |rows| && rows[i].data.title == s.accepted[k].title &&
          rows[i].data.description == s.accepted[k].description && v.concept(rows[i], s.accepted[..k]).isValid
  {
    var decide := ConceptDecide(v, dictId, now, firstId);
    var acc := Run(decide, sheetIndex, sheetName, rows).accepted;
    RunPartition(decide, sheetIndex, sheetName, rows);
    ConceptIds(v, dictId, now, firstId, sheetIndex, sheetName, rows, acc);
    forall k | 0 <= k < |acc|
      ensures exists i :: (0 <= i < |rows| && rows[i].data.title == acc[k].title &&
        rows[i].data.description == acc[k].description && v.concept(rows[i], acc[..k]).isValid)
    {
      var i := RunOriginAt(decide, sheetIndex, sheetName, rows, k);
      assert ConceptVerdict(v, dictId, now, firstId, rows[i], acc[..k]) == Accept(acc[k]);
    }
  }

  /** Under sound validators a concept-relationship row's verdict is decided by
      the validator's answer alone. */
  lemma ConceptRelVerdictByResult(v: Validators, links: seq<LinkItem>, concepts: seq<Concept>, dictId: Guid,
                                  now: DateTime, row: Row<ConceptRelationshipImport>, accepted: seq<ConceptRelationship>)
    requires ValidatorsSound(v)
    ensures var child := FindConcept(concepts, row.data.childName);
      var parent := FindConcept(concepts, row.data.parentName);
      var link := FindLink(links, row.data.conceptLinkName);
      var res := v.conceptRel(row, accepted, child, parent, link);
      if res.isValid then
        child.Some? && parent.Some? && link.Some? &&
        ConceptRelVerdict(v, links, concepts, dictId, now, row, accepted) ==
          Accept(ConceptRelationship(child.value.conceptId, parent.value.conceptId, link.value.id, dictId, now))
      else ConceptRelVerdict(v, links, concepts, dictId, now, row, accepted) == Reject(res)
  {
  }

  /** Every accepted concept relationship joins two concepts of `concepts` by a
      link type of `links` and is stamped with the target dictionary and the
      shared time. */
  lemma ConceptRelRefs(v: Validators, links: seq<LinkItem>, concepts: seq<Concept>, dictId: Guid, now: DateTime,
                       sheetIndex: int, sheetName: string, rows: seq<Row<ConceptRelationshipImport>>,
                       acc: seq<ConceptRelationship>)
    requires acc == Run(ConceptRelDecide(v, links, concepts, dictId, now), sheetIndex, sheetName, rows).accepted
    ensures forall r :: r in acc ==>
        HasConcept(concepts, r.conceptId) && HasConcept(concepts, r.parentId) && HasLink(links, r.conceptLinkId) &&
        r.dictionaryId == dictId && r.createdDate == now
  {
    var decide := ConceptRelDecide(v, links, concepts, dictId, now);
    forall r | r in acc
      ensures HasConcept(concepts, r.conceptId) && HasConcept(concepts, r.parentId) && HasLink(links, r.conceptLinkId) &&
        r.dictionaryId == dictId && r.createdDate == now
    {
      var k :| 0 <= k < |acc| && acc[k] == r;
      var i := RunOriginAt(decide, sheetIndex, sheetName, rows, k);
      assert ConceptRelVerdict(v, links, concepts, dictId, now, rows[i], acc[..k]) == Accept(r);
      var child := FindConcept(concepts, rows[i].data.childName);
      var parent := FindConcept(concepts, rows[i].data.parentName);
      var link := FindLink(links, rows[i].data.conceptLinkName);
      assert child.Some? && parent.Some? && link.Some?;
      FindByFirst(concepts, ConceptTitle, rows[i].data.childName);
      FindByFirst(concepts, ConceptTitle, rows[i].data.parentName);
      FindByFirst(links, LinkName, rows[i].data.conceptLinkName);
      assert child.value in concepts && parent.value in concepts && link.value in links;
    }
  }

  /** Concept-relationship sheet: a row whose child, parent or link type does
      not resolve is rejected with its validation verdict; every accepted
      relationship joins two concepts of `concepts` by a link type of `links`
      and is stamped with the target dictionary and the shared time. */
  lemma ConceptRelSheet(v: Validators, links: seq<LinkItem>, concepts: seq<Concept>, dictId: Guid, now: DateTime,
                        sheetIndex: int, sheetName: string, rows: seq<Row<ConceptRelationshipImport>>)
    ensures var decide := ConceptRelDecide(v, links, concepts, dictId, now);
      var s := Run(decide, sheetIndex, sheetName, rows);
      |s.accepted| + |s.errors| == |rows| &&
      (forall i :: 0 <= i < |rows| ==>
         var child := FindConcept(concepts, rows[i].data.childName);
         var parent := FindConcept(concepts, rows[i].data.parentName);
         var link := FindLink(links, rows[i].data.conceptLinkName);
         (child.None? || parent.None? || link.None?) ==>
           Verdict(decide, sheetIndex, sheetName, rows, i) ==
             Reject(v.conceptRel(rows[i], Run(decide, sheetIndex, sheetName, rows[..i]).accepted, child, parent, link))) &&
      forall k :: 0 <= k < |s.accepted| ==>
        HasConcept(concepts, s.accepted[k].conceptId) &&
        HasConcept(concepts, s.accepted[k].parentId) &&
        HasLink(links, s.accepted[k].conceptLinkId) &&
        s.accepted[k].dictionaryId == dictId && s.accepted[k].createdDate == now
  {
    var decide := ConceptRelDecide(v, links, concepts, dictId, now);
    var acc := Run(decide, sheetIndex, sheetName, rows).accepted;
    RunPartition(decide, sheetIndex, sheetName, rows);
    ConceptRelRefs(v, links, concepts, dictId, now, sheetIndex, sheetName, rows, acc);
    forall k | 0 <= k < |acc|
      ensures HasConcept(concepts, acc[k].conceptId) && HasConcept(concepts, acc[k].parentId) &&
        HasLink(links, acc[k].conceptLinkId) && acc[k].dictionaryId == dictId && acc[k].createdDate == now
    {
      assert acc[k] in acc;
    }
  }

  /** A concept relationship names the FIRST concept with the child's title and
      the first with the parent's, and the first link type with the row's name. */
  lemma ConceptRelFirstMatch(v: Validators, links: seq<LinkItem>, concepts: seq<Concept>, dictId: Guid, now: DateTime,
                             row: Row<ConceptRelationshipImport>, accepted: seq<ConceptRelationship>)
    requires ConceptRelDecide(v, links, concepts, dictId, now)(row, accepted).Accept?
    ensures var rel := ConceptRelDecide(v, links, concepts, dictId, now)(row, accepted).record;
      (exists i :: 0 <= i < |concepts| && concepts[i].title == row.data.childName &&
         concepts[i].conceptId == rel.conceptId && forall j :: 0 <= j < i ==> concepts[j].title != row.data.childName) &&
      (exists i :: 0 <= i < |concepts| && concepts[i].title == row.data.parentName &&
         concepts[i].conceptId == rel.parentId && forall j :: 0 <= j < i ==> concepts[j].title != row.data.parentName) &&
      (exists i :: 0 <= i < |links| && links[i].name == row.data.conceptLinkName &&
         links[i].id == rel.conceptLinkId && forall j :: 0 <= j < i ==> links[j].name != row.data.conceptLinkName)
  {
    var child := FindConcept(concepts, row.data.childName);
    var parent := FindConcept(concepts, row.data.parentName);
    var link := FindLink(links, row.data.conceptLinkName);
    assert child.Some? && parent.Some? && link.Some?;
    FindByFirst(concepts, ConceptTitle, row.data.childName);
    FindByFirst(concepts, ConceptTitle, row.data.parentName);
    FindByFirst(links, LinkName, row.data.conceptLinkName);
  }

  /** The k-th accepted example carries the k-th fresh id of its run, the
      target dictionary and the shared time. */
  lemma ExampleIds(v: Validators, config: RawConfig, stripHtml: string -> string, dictId: Guid, now: DateTime,
                   firstId: Guid, sheetIndex: int, sheetName: string, rows: seq<Row<ExampleImport>>, acc: seq<Example>)
    requires acc == Run(ExampleDecide(v, config, stripHtml, dictId, now, firstId), sheetIndex, sheetName, rows).accepted
    ensures forall k :: 0 <= k < |acc| ==>
        acc[k].exampleId == firstId + k && acc[k].dictionaryId == dictId && acc[k].createdDate == now
  {
    var decide := ExampleDecide(v, config, stripHtml, dictId, now, firstId);
    forall k | 0 <= k < |acc|
      ensures acc[k].exampleId == firstId + k && acc[k].dictionaryId == dictId && acc[k].createdDate == now
    {
      var i := RunOriginAt(decide, sheetIndex, sheetName, rows, k);
      assert ExampleVerdict(v, config, stripHtml, dictId, now, firstId, rows[i], acc[..k]) == Accept(acc[k]);
    }
  }

  /** Example sheet: the k-th accepted example carries the k-th fresh id, the
      target dictionary and the shared time, and comes from a row whose rich-text
      detail and note it copies, whose detail it strips of markup, and whose
      five tag names it maps to null when blank and otherwise to the first
      vocabulary entry of that name. */
  lemma ExampleSheet(v: Validators, config: RawConfig, stripHtml: string -> string, dictId: Guid, now: DateTime,
                     firstId: Guid, sheetIndex: int, sheetName: string, rows: seq<Row<ExampleImport>>)
    ensures var decide := ExampleDecide(v, config, stripHtml, dictId, now, firstId);
      var s := Run(decide, sheetIndex, sheetName, rows);
      |s.accepted| + |s.errors| == |rows| &&
      forall k :: 0 <= k < |s.accepted| ==>
        s.accepted[k].exampleId == firstId + k && s.accepted[k].dictionaryId == dictId &&
        s.accepted[k].createdDate == now &&
        exists i :: 0 <= i < |rows| && ExampleFrom(s.accepted[k], rows[i].data, config, stripHtml)
  {
    var decide := ExampleDecide(v, config, stripHtml, dictId, now, firstId);
    var acc := Run(decide, sheetIndex, sheetName, rows).accepted;
    RunPartition(decide, sheetIndex, sheetName, rows);
    ExampleIds(v, config, stripHtml, dictId, now, firstId, sheetIndex, sheetName, rows, acc);
    forall k | 0 <= k < |acc|
      ensures exists i :: 0 <= i < |rows| && ExampleFrom(acc[k], rows[i].data, config, stripHtml)
    {
      var i := RunOriginAt(decide, sheetIndex, sheetName, rows, k);
      assert ExampleVerdict(v, config, stripHtml, dictId, now, firstId, rows[i], acc[..k]) == Accept(acc[k]);
      var d := rows[i].data;
      var e := acc[k];
      TagFound(e.toneId, config.tones, d.toneName);
      TagFound(e.modeId, config.modes, d.modeName);
      TagFound(e.registerId, config.registers, d.registerName);
      TagFound(e.nuanceId, config.nuances, d.nuanceName);
      TagFound(e.dialectId, config.dialects, d.dialectName);
      assert ExampleFrom(e, d, config, stripHtml);
    }
  }

  /** The example record a row yields: detail and note copied, the plain text
      derived from the rich text, the five tags resolved. */
  predicate ExampleFrom(e: Example, d: ExampleImport, config: RawConfig, stripHtml: string -> string)
  {
    e.detailHtml == d.detailHtml && e.detail == stripHtml(d.detailHtml) && e.note == d.note &&
    TagMatches(e.toneId, config.tones, d.toneName) && TagMatches(e.modeId, config.modes, d.modeName) &&
    TagMatches(e.registerId, config.registers, d.registerName) &&
    TagMatches(e.nuanceId, config.nuances, d.nuanceName) && TagMatches(e.dialectId, config.dialects, d.dialectName)
  }

  /** OptionalId over FindVocab yields an id as TagMatches describes it. */
  lemma TagFound(id: Option<Guid>, items: seq<VocabItem>, name: string)
    requires Resolved(name, FindVocab(items, name)) && id == OptionalId(name, FindVocab(items, name))
    ensures TagMatches(id, items, name)
  {
    FindByFirst(items, VocabName, name);
  }

  /** Under sound validators an example-relationship row's verdict is decided
      by the validator's answer alone. */
  lemma ExampleRelVerdictByResult(v: Validators, links: seq<LinkItem>, concepts: seq<Concept>, examples: seq<Example>,
                                  dictId: Guid, now: DateTime,
                                  row: Row<ExampleRelationshipImport>, accepted: seq<ExampleRelationship>)
    requires ValidatorsSound(v)
    ensures var concept := FindConcept(concepts, row.data.concept);
      var example := FindExample(examples, row.data.exampleHtml);
      var link := FindLink(links, row.data.exampleLinkName);
      var res := v.exampleRel(row, accepted, concept, example, link);
      if res.isValid then
        concept.Some? && example.Some? && link.Some? &&
        ExampleRelVerdict(v, links, concepts, examples, dictId, now, row, accepted) ==
          Accept(ExampleRelationship(concept.value.conceptId, example.value.exampleId, link.value.id, dictId, now))
      else ExampleRelVerdict(v, links, concepts, examples, dictId, now, row, accepted) == Reject(res)
  {
  }

  /** Every accepted example relationship joins a concept of `concepts` to an
      example of `examples` by a link type of `links`. */
  lemma ExampleRelRefs(v: Validators, links: seq<LinkItem>, concepts: seq<Concept>, examples: seq<Example>,
                       dictId: Guid, now: DateTime, sheetIndex: int, sheetName: string,
                       rows: seq<Row<ExampleRelationshipImport>>, acc: seq<ExampleRelationship>)
    requires acc == Run(ExampleRelDecide(v, links, concepts, examples, dictId, now), sheetIndex, sheetName, rows).accepted
    ensures forall r :: r in acc ==>
        HasConcept(concepts, r.conceptId) && HasExample(examples, r.exampleId) && HasLink(links, r.exampleLinkId) &&
        r.dictionaryId == dictId && r.createdDate == now
  {
    var decide := ExampleRelDecide(v, links, concepts, examples, dictId, now);
    forall r | r in acc
      ensures HasConcept(concepts, r.conceptId) && HasExample(examples, r.exampleId) && HasLink(links, r.exampleLinkId) &&
        r.dictionaryId == dictId && r.createdDate == now
    {
      var k :| 0 <= k < |acc| && acc[k] == r;
      var i := RunOriginAt(decide, sheetIndex, sheetName, rows, k);
      assert ExampleRelVerdict(v, links, concepts, examples, dictId, now, rows[i], acc[..k]) == Accept(r);
      var concept := FindConcept(concepts, rows[i].data.concept);
      var example := FindExample(examples, rows[i].data.exampleHtml);
      var link := FindLink(links, rows[i].data.exampleLinkName);
      assert concept.Some? && example.Some? && link.Some?;
      FindByFirst(concepts, ConceptTitle, rows[i].data.concept);
      FindByFirst(examples, ExampleHtml, rows[i].data.exampleHtml);
      FindByFirst(links, LinkName, rows[i].data.exampleLinkName);
      assert concept.value in concepts && example.value in examples && link.value in links;
    }
  }

  /** Example-relationship sheet: a row whose concept, example or link type does
      not resolve is rejected with its validation verdict; every accepted
      relationship joins a concept of `concepts` to an example of `examples` by
      a link type of `links`. */
  lemma ExampleRelSheet(v: Validators, links: seq<LinkItem>, concepts: seq<Concept>, examples: seq<Example>,
                        dictId: Guid, now: DateTime, sheetIndex: int, sheetName: string,
                        rows: seq<Row<ExampleRelationshipImport>>)
    ensures var decide := ExampleRelDecide(v, links, concepts, examples, dictId, now);
      var s := Run(decide, sheetIndex, sheetName, rows);
      |s.accepted| + |s.errors| == |rows| &&
      (forall i :: 0 <= i < |rows| ==>
         var concept := FindConcept(concepts, rows[i].data.concept);
         var example := FindExample(examples, rows[i].data.exampleHtml);
         var link := FindLink(links, rows[i].data.exampleLinkName);
         (concept.None? || example.None? || link.None?) ==>
           Verdict(decide, sheetIndex, sheetName, rows, i) ==
             Reject(v.exampleRel(rows[i], Run(decide, sheetIndex, sheetName, rows[..i]).accepted, concept, example, link))) &&
      forall k :: 0 <= k < |s.accepted| ==>
        HasConcept(concepts, s.accepted[k].conceptId) &&
        HasExample(examples, s.accepted[k].exampleId) &&
        HasLink(links, s.accepted[k].exampleLinkId) &&
        s.accepted[k].dictionaryId == dictId && s.accepted[k].createdDate == now
  {
    var decide := ExampleRelDecide(v, links, concepts, examples, dictId, now);
    var acc := Run(decide, sheetIndex, sheetName, rows).accepted;
    RunPartition(decide, sheetIndex, sheetName, rows);
    ExampleRelRefs(v, links, concepts, examples, dictId, now, sheetIndex, sheetName, rows, acc);
    forall k | 0 <= k < |acc|
      ensures HasConcept(concepts, acc[k].conceptId) && HasExample(examples, acc[k].exampleId) &&
        HasLink(links, acc[k].exampleLinkId) && acc[k].dictionaryId == dictId && acc[k].createdDate == now
    {
      assert acc[k] in acc;
    }
  }
}
