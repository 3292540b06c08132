/** The import of a workbook (TemplateService.ImportDictionary and
    HandleImportData): two structural checks on the upload, then four sheet
    passes in a fixed order (concepts, concept relationships, examples, example
    relationships), each clearing its sheet's error column and then validating
    its rows one by one against the records accepted so far. */
module ImportPass {
  import opened Common
  import opened ConfigData
  import opened Sheet
  import opened ImportRules

  /** Guid.NewGuid: a supply that never hands out the same identity twice. */
  class GuidSupply {
    /** Every identity below `next` has been handed out. */
    var next: nat

    constructor (start: nat)
      ensures next == start
    {
      next := start;
    }

    method NewGuid() returns (id: Guid)
      modifies this
      ensures id == old(next) && next == old(next) + 1
    {
      id := next;
      next := next + 1;
    }
  }

  /** The opened workbook: its four data sheets and its custom properties. */
  class Workbook {
    const concept: Worksheet<ConceptImport>
    const conceptRel: Worksheet<ConceptRelationshipImport>
    const example: Worksheet<ExampleImport>
    const exampleRel: Worksheet<ExampleRelationshipImport>
    /** Workbook.Properties custom properties, each value as its ToString(). */
    const customProperties: map<string, string>

    constructor (concept: Worksheet<ConceptImport>, conceptRel: Worksheet<ConceptRelationshipImport>,
                 example: Worksheet<ExampleImport>, exampleRel: Worksheet<ExampleRelationshipImport>,
                 customProperties: map<string, string>)
      ensures this.concept == concept && this.conceptRel == conceptRel
      ensures this.example == example && this.exampleRel == exampleRel
      ensures this.customProperties == customProperties
    {
      this.concept := concept;
      this.conceptRel := conceptRel;
      this.example := example;
      this.exampleRel := exampleRel;
      this.customProperties := customProperties;
    }

    function Sheets(): set<object>
    {
      {concept, conceptRel, example, exampleRel}
    }
  }

  /** What the four sheet passes build. */
  datatype PassStates = PassStates(
    concept: SheetState<Concept>, conceptRel: SheetState<ConceptRelationship>,
    example: SheetState<Example>, exampleRel: SheetState<ExampleRelationship>)

  /** The records and error entries an import yields. */
  datatype ImportOutcome = ImportOutcome(
    concepts: seq<Concept>, conceptRels: seq<ConceptRelationship>,
    examples: seq<Example>, exampleRels: seq<ExampleRelationship>,
    errors: seq<ValidateResult>)

  /** The concept sheet's pass, drawing ids from `firstId` on. */
  function ConceptPass(wb: Workbook, v: Validators, dictId: Guid, now: DateTime, firstId: Guid): SheetState<Concept>
  {
    Run(ConceptDecide(v, dictId, now, firstId), wb.concept.index, wb.concept.name, wb.concept.rows)
  }

  /** The concept-relationship sheet's pass against the accepted `concepts`. */
  function ConceptRelPass(wb: Workbook, config: RawConfig, v: Validators, concepts: seq<Concept>,
                          dictId: Guid, now: DateTime): SheetState<ConceptRelationship>
  {
    Run(ConceptRelDecide(v, config.conceptLinks, concepts, dictId, now),
        wb.conceptRel.index, wb.conceptRel.name, wb.conceptRel.rows)
  }

  /** The example sheet's pass, drawing ids from `firstId` on. */
  function ExamplePass(wb: Workbook, config: RawConfig, v: Validators, stripHtml: string -> string,
                       dictId: Guid, now: DateTime, firstId: Guid): SheetState<Example>
  {
    Run(ExampleDecide(v, config, stripHtml, dictId, now, firstId), wb.example.index, wb.example.name, wb.example.rows)
  }

  /** The example-relationship sheet's pass against the accepted `concepts` and `examples`. */
  function ExampleRelPass(wb: Workbook, config: RawConfig, v: Validators, concepts: seq<Concept>,
                          examples: seq<Example>, dictId: Guid, now: DateTime): SheetState<ExampleRelationship>
  {
    Run(ExampleRelDecide(v, config.exampleLinks, concepts, examples, dictId, now),
        wb.exampleRel.index, wb.exampleRel.name, wb.exampleRel.rows)
  }

  /** The four passes in order: later sheets resolve names against the final
      lists of earlier ones; fresh ids are drawn from `firstId` on, concepts
      first, then examples. */
  function Pass(wb: Workbook, config: RawConfig, v: Validators, stripHtml: string -> string,
                dictId: Guid, now: DateTime, firstId: Guid): (p: PassStates)
  {
    var c := ConceptPass(wb, v, dictId, now, firstId);
    var cr := ConceptRelPass(wb, config, v, c.accepted, dictId, now);
    var e := ExamplePass(wb, config, v, stripHtml, dictId, now, firstId + |c.accepted|);
    var er := ExampleRelPass(wb, config, v, c.accepted, e.accepted, dictId, now);
    PassStates(c, cr, e, er)
  }

  /** What an import yields: the four accepted lists, and the error entries of
      the four sheets in sheet order. */
  function Outcome(p: PassStates): (o: ImportOutcome)
    ensures o.concepts == p.concept.accepted && o.conceptRels == p.conceptRel.accepted
    ensures o.examples == p.example.accepted && o.exampleRels == p.exampleRel.accepted
    ensures |o.errors| == |p.concept.errors| + |p.conceptRel.errors| + |p.example.errors| + |p.exampleRel.errors|
    ensures o.errors[..|p.concept.errors|] == p.concept.errors
    ensures o.errors[|o.errors| - |p.exampleRel.errors|..] == p.exampleRel.errors
  {
    ImportOutcome(p.concept.accepted, p.conceptRel.accepted, p.example.accepted, p.exampleRel.accepted,
                  p.concept.errors + p.conceptRel.errors + p.example.errors + p.exampleRel.errors)
  }

  /** The annotations on the workbook are those the passes produced. */
  ghost predicate Annotated(wb: Workbook, p: PassStates)
    reads wb.Sheets()
  {
    wb.concept.errorCells == p.concept.errorCells && wb.concept.redRows == p.concept.redRows &&
    wb.conceptRel.errorCells == p.conceptRel.errorCells && wb.conceptRel.redRows == p.conceptRel.redRows &&
    wb.example.errorCells == p.example.errorCells && wb.example.redRows == p.example.redRows &&
    wb.exampleRel.errorCells == p.exampleRel.errorCells && wb.exampleRel.redRows == p.exampleRel.redRows
  }

  /** The concept sheet's pass. */
  method ImportConcepts(ws: Worksheet<ConceptImport>, v: Validators, dictId: Guid, now: DateTime, ids: GuidSupply)
    returns (concepts: seq<Concept>, errors: seq<ValidateResult>)
    modifies ws, ids
    ensures SheetState(concepts, errors, ws.errorCells, ws.redRows) ==
      Run(ConceptDecide(v, dictId, now, old(ids.next)), ws.index, ws.name, ws.rows)
    ensures ids.next == old(ids.next) + |concepts|
  {
    ws.ClearError();
    ghost var decide := ConceptDecide(v, dictId, now, ids.next);
    ghost var firstId := ids.next;
    concepts, errors := [], [];
    var i := 0;
    while i < |ws.rows|
      invariant 0 <= i <= |ws.rows|
      invariant SheetState(concepts, errors, ws.errorCells, ws.redRows) == Run(decide, ws.index, ws.name, ws.rows[..i])
      invariant ids.next == firstId + |concepts|
    {
      var row := ws.rows[i];
      var res := v.concept(row, concepts);
      RunStep(decide, ws.index, ws.name, ws.rows, i);
      if !res.isValid {
        ws.SetErrorMessage(row.rowIndex, res.errorMessage);
        errors := errors + [Tag(res, ws.index, ws.name)];
      } else {
        var id := ids.NewGuid();
        concepts := concepts + [Concept(id, row.data.title, row.data.description, dictId, now)];
      }
      i := i + 1;
    }
    assert ws.rows[..i] == ws.rows;
  }

  /** The concept-relationship sheet's pass, against the accepted `concepts`. */
  method ImportConceptRelationships(ws: Worksheet<ConceptRelationshipImport>, v: Validators, links: seq<LinkItem>,
                                    concepts: seq<Concept>, dictId: Guid, now: DateTime)
    returns (rels: seq<ConceptRelationship>, errors: seq<ValidateResult>)
    requires ValidatorsSound(v)
    modifies ws
    ensures SheetState(rels, errors, ws.errorCells, ws.redRows) ==
      Run(ConceptRelDecide(v, links, concepts, dictId, now), ws.index, ws.name, ws.rows)
  {
    ws.ClearError();
    ghost var decide := ConceptRelDecide(v, links, concepts, dictId, now);
    rels, errors := [], [];
    var i := 0;
    while i < |ws.rows|
      invariant 0 <= i <= |ws.rows|
      invariant SheetState(rels, errors, ws.errorCells, ws.redRows) == Run(decide, ws.index, ws.name, ws.rows[..i])
    {
      var row := ws.rows[i];
      var child := FindConcept(concepts, row.data.childName);
      var parent := FindConcept(concepts, row.data.parentName);
      var link := FindLink(links, row.data.conceptLinkName);
      var res := v.conceptRel(row, rels, child, parent, link);
      RunStep(decide, ws.index, ws.name, ws.rows, i);
      if !res.isValid {
        ws.SetErrorMessage(row.rowIndex, res.errorMessage);
        errors := errors + [Tag(res, ws.index, ws.name)];
      } else {
        rels := rels + [ConceptRelationship(child.value.conceptId, parent.value.conceptId, link.value.id, dictId, now)];
      }
      i := i + 1;
    }
    assert ws.rows[..i] == ws.rows;
  }

  /** The example sheet's pass. */
  method ImportExamples(ws: Worksheet<ExampleImport>, v: Validators, config: RawConfig, stripHtml: string -> string,
                        dictId: Guid, now: DateTime, ids: GuidSupply)
    returns (examples: seq<Example>, errors: seq<ValidateResult>)
    requires ValidatorsSound(v)
    modifies ws, ids
    ensures SheetState(examples, errors, ws.errorCells, ws.redRows) ==
      Run(ExampleDecide(v, config, stripHtml, dictId, now, old(ids.next)), ws.index, ws.name, ws.rows)
    ensures ids.next == old(ids.next) + |examples|
  {
    ws.ClearError();
    ghost var decide := ExampleDecide(v, config, stripHtml, dictId, now, ids.next);
    ghost var firstId := ids.next;
    examples, errors := [], [];
    var i := 0;
    while i < |ws.rows|
      invariant 0 <= i <= |ws.rows|
      invariant SheetState(examples, errors, ws.errorCells, ws.redRows) == Run(decide, ws.index, ws.name, ws.rows[..i])
      invariant ids.next == firstId + |examples|
    {
      var row := ws.rows[i];
      var d := row.data;
      var tone := FindVocab(config.tones, d.toneName);
      var mode := FindVocab(config.modes, d.modeName);
      var register := FindVocab(config.registers, d.registerName);
      var nuance := FindVocab(config.nuances, d.nuanceName);
      var dialect := FindVocab(config.dialects, d.dialectName);
      var res := v.example(row, examples, tone, mode, register, nuance, dialect);
      RunStep(decide, ws.index, ws.name, ws.rows, i);
      ExampleVerdictByResult(v, config, stripHtml, dictId, now, firstId, row, examples);
      assert Verdict(decide, ws.index, ws.name, ws.rows, i)
          == ExampleVerdict(v, config, stripHtml, dictId, now, firstId, row, examples);
      if !res.isValid {
        ws.SetErrorMessage(row.rowIndex, res.errorMessage);
        errors := errors + [Tag(res, ws.index, ws.name)];
      } else {
        var id := ids.NewGuid();
        examples := examples + [ExampleRecord(id, d, tone, mode, register, nuance, dialect, stripHtml, dictId, now)];
      }
      i := i + 1;
    }
    assert ws.rows[..i] == ws.rows;
  }

  /** The example-relationship sheet's pass, against the accepted concepts and examples. */
  method ImportExampleRelationships(ws: Worksheet<ExampleRelationshipImport>, v: Validators, links: seq<LinkItem>,
                                    concepts: seq<Concept>, examples: seq<Example>, dictId: Guid, now: DateTime)
    returns (rels: seq<ExampleRelationship>, errors: seq<ValidateResult>)
    requires ValidatorsSound(v)
    modifies ws
    ensures SheetState(rels, errors, ws.errorCells, ws.redRows) ==
      Run(ExampleRelDecide(v, links, concepts, examples, dictId, now), ws.index, ws.name, ws.rows)
  {
    ws.ClearError();
    ghost var decide := ExampleRelDecide(v, links, concepts, examples, dictId, now);
    rels, errors := [], [];
    var i := 0;
    while i < |ws.rows|
      invariant 0 <= i <= |ws.rows|
      invariant SheetState(rels, errors, ws.errorCells, ws.redRows) == Run(decide, ws.index, ws.name, ws.rows[..i])
    {
      var row := ws.rows[i];
      var concept := FindConcept(concepts, row.data.concept);
      var example := FindExample(examples, row.data.exampleHtml);
      var link := FindLink(links, row.data.exampleLinkName);
      var res := v.exampleRel(row, rels, concept, example, link);
      RunStep(decide, ws.index, ws.name, ws.rows, i);
      if !res.isValid {
        ws.SetErrorMessage(row.rowIndex, res.errorMessage);
        errors := errors + [Tag(res, ws.index, ws.name)];
      } else {
        rels := rels + [ExampleRelationship(concept.value.conceptId, example.value.exampleId, link.value.id, dictId, now)];
      }
      i := i + 1;
    }
    assert ws.rows[..i] == ws.rows;
  }

  /** HandleImportData: the four passes in order; the error list collects the
      sheets' errors in sheet order. */
  method HandleImportData(wb: Workbook, dictId: Guid, now: DateTime, config: RawConfig, v: Validators,
                          stripHtml: string -> string, ids: GuidSupply)
    returns (outcome: ImportOutcome)
    requires ValidatorsSound(v)
    modifies wb.Sheets(), ids
    ensures var p := Pass(wb, config, v, stripHtml, dictId, now, old(ids.next));
      outcome == Outcome(p) && Annotated(wb, p)
    ensures ids.next == old(ids.next) + |outcome.concepts| + |outcome.examples|
  {
    ghost var firstId := ids.next;
    ghost var p := Pass(wb, config, v, stripHtml, dictId, now, firstId);
    var concepts, conceptErrors := ImportConcepts(wb.concept, v, dictId, now, ids);
    var validateErrors := conceptErrors;
    ghost var conceptState := SheetState(concepts, conceptErrors, wb.concept.errorCells, wb.concept.redRows);
    assert conceptState == p.concept;

    var conceptRels, conceptRelErrors := ImportConceptRelationships(wb.conceptRel, v, config.conceptLinks,
                                                                     concepts, dictId, now);
    validateErrors := validateErrors + conceptRelErrors;
    ghost var conceptRelState :=
      SheetState(conceptRels, conceptRelErrors, wb.conceptRel.errorCells, wb.conceptRel.redRows);
    assert conceptRelState == p.conceptRel;

    assert ids.next == firstId + |p.concept.accepted|;
    assert p.example == Run(ExampleDecide(v, config, stripHtml, dictId, now, ids.next),
                            wb.example.index, wb.example.name, wb.example.rows);
    var examples, exampleErrors := ImportExamples(wb.example, v, config, stripHtml, dictId, now, ids);
    validateErrors := validateErrors + exampleErrors;
    ghost var exampleState := SheetState(examples, exampleErrors, wb.example.errorCells, wb.example.redRows);
    assert exampleState == p.example;

    var exampleRels, exampleRelErrors := ImportExampleRelationships(wb.exampleRel, v, config.exampleLinks,
                                                                    concepts, examples, dictId, now);
    validateErrors := validateErrors + exampleRelErrors;
    assert SheetState(exampleRels, exampleRelErrors, wb.exampleRel.errorCells, wb.exampleRel.redRows)
        == p.exampleRel;
    assert conceptState == SheetState(concepts, conceptErrors, wb.concept.errorCells, wb.concept.redRows);
    assert conceptRelState ==
      SheetState(conceptRels, conceptRelErrors, wb.conceptRel.errorCells, wb.conceptRel.redRows);
    assert exampleState == SheetState(examples, exampleErrors, wb.example.errorCells, wb.example.redRows);

    outcome := ImportOutcome(concepts, conceptRels, examples, exampleRels, validateErrors);
    assert outcome == Outcome(p);
  }

  /** Fresh identities: concepts take the ids from `firstId` on in the order
      they were accepted, examples the ones right after them, so no example
      shares an id with a concept. */
  lemma PassIds(wb: Workbook, config: RawConfig, v: Validators, stripHtml: string -> string,
                dictId: Guid, now: DateTime, firstId: Guid)
    ensures var o := Outcome(Pass(wb, config, v, stripHtml, dictId, now, firstId));
      (forall k :: 0 <= k < |o.concepts| ==> o.concepts[k].conceptId == firstId + k) &&
      (forall k :: 0 <= k < |o.examples| ==> o.examples[k].exampleId == firstId + |o.concepts| + k) &&
      (forall k, m :: 0 <= k < |o.concepts| && 0 <= m < |o.examples| ==>
         o.concepts[k].conceptId != o.examples[m].exampleId)
  {
    var cs := ConceptPass(wb, v, dictId, now, firstId);
    var es := ExamplePass(wb, config, v, stripHtml, dictId, now, firstId + |cs.accepted|);
    var crs := ConceptRelPass(wb, config, v, cs.accepted, dictId, now);
    var ers := ExampleRelPass(wb, config, v, cs.accepted, es.accepted, dictId, now);
    assert Pass(wb, config, v, stripHtml, dictId, now, firstId) == PassStates(cs, crs, es, ers);
    var c, e := cs.accepted, es.accepted;
    ConceptIds(v, dictId, now, firstId, wb.concept.index, wb.concept.name, wb.concept.rows, c);
    ExampleIds(v, config, stripHtml, dictId, now, firstId + |c|, wb.example.index, wb.example.name, wb.example.rows, e);
    forall k, m | 0 <= k < |c| && 0 <= m < |e|
      ensures c[k].conceptId != e[m].exampleId
    {
      assert c[k].conceptId < firstId + |c| <= e[m].exampleId;
    }
  }

  /** No dangling references: every relationship of an import joins records
      accepted in that same import. */
  lemma PassReferences(wb: Workbook, config: RawConfig, v: Validators, stripHtml: string -> string,
                       dictId: Guid, now: DateTime, firstId: Guid)
    ensures var o := Outcome(Pass(wb, config, v, stripHtml, dictId, now, firstId));
      (forall r :: r in o.conceptRels ==> HasConcept(o.concepts, r.conceptId) && HasConcept(o.concepts, r.parentId)) &&
      (forall r :: r in o.exampleRels ==> HasConcept(o.concepts, r.conceptId) && HasExample(o.examples, r.exampleId))
  {
    var cs := ConceptPass(wb, v, dictId, now, firstId);
    var c := cs.accepted;
    var es := ExamplePass(wb, config, v, stripHtml, dictId, now, firstId + |c|);
    var e := es.accepted;
    var crs := ConceptRelPass(wb, config, v, c, dictId, now);
    var cr := crs.accepted;
    var ers := ExampleRelPass(wb, config, v, c, e, dictId, now);
    var er := ers.accepted;
    assert Pass(wb, config, v, stripHtml, dictId, now, firstId) == PassStates(cs, crs, es, ers);
    assert cr == Run(ConceptRelDecide(v, config.conceptLinks, c, dictId, now),
                     wb.conceptRel.index, wb.conceptRel.name, wb.conceptRel.rows).accepted;
    assert er == Run(ExampleRelDecide(v, config.exampleLinks, c, e, dictId, now),
                     wb.exampleRel.index, wb.exampleRel.name, wb.exampleRel.rows).accepted;
    ConceptRelRefs(v, config.conceptLinks, c, dictId, now, wb.conceptRel.index, wb.conceptRel.name, wb.conceptRel.rows, cr);
    ExampleRelRefs(v, config.exampleLinks, c, e, dictId, now, wb.exampleRel.index, wb.exampleRel.name,
                   wb.exampleRel.rows, er);
  }

  /** Every row of every sheet yields either one record or one error entry. */
  lemma PassCounts(wb: Workbook, config: RawConfig, v: Validators, stripHtml: string -> string,
                   dictId: Guid, now: DateTime, firstId: Guid)
    ensures var p := Pass(wb, config, v, stripHtml, dictId, now, firstId);
      |p.concept.accepted| + |p.concept.errors| == |wb.concept.rows| &&
      |p.conceptRel.accepted| + |p.conceptRel.errors| == |wb.conceptRel.rows| &&
      |p.example.accepted| + |p.example.errors| == |wb.example.rows| &&
      |p.exampleRel.accepted| + |p.exampleRel.errors| == |wb.exampleRel.rows|
    ensures var o := Outcome(Pass(wb, config, v, stripHtml, dictId, now, firstId));
      |o.concepts| + |o.conceptRels| + |o.examples| + |o.exampleRels| + |o.errors| ==
        |wb.concept.rows| + |wb.conceptRel.rows| + |wb.example.rows| + |wb.exampleRel.rows|
  {
    var c := ConceptPass(wb, v, dictId, now, firstId);
    var e := ExamplePass(wb, config, v, stripHtml, dictId, now, firstId + |c.accepted|);
    var cr := ConceptRelPass(wb, config, v, c.accepted, dictId, now);
    var er := ExampleRelPass(wb, config, v, c.accepted, e.accepted, dictId, now);
    assert Pass(wb, config, v, stripHtml, dictId, now, firstId) == PassStates(c, cr, e, er);
    RunPartition(ConceptDecide(v, dictId, now, firstId), wb.concept.index, wb.concept.name, wb.concept.rows);
    RunPartition(ConceptRelDecide(v, config.conceptLinks, c.accepted, dictId, now),
                 wb.conceptRel.index, wb.conceptRel.name, wb.conceptRel.rows);
    RunPartition(ExampleDecide(v, config, stripHtml, dictId, now, firstId + |c.accepted|),
                 wb.example.index, wb.example.name, wb.example.rows);
    RunPartition(ExampleRelDecide(v, config.exampleLinks, c.accepted, e.accepted, dictId, now),
                 wb.exampleRel.index, wb.exampleRel.name, wb.exampleRel.rows);
  }
}
