/** The user's controlled vocabularies and the name lists bound into the
    template's Config sheet (TemplateService.GetConfigData). */
module ConfigData {
  import opened Common

  /** concept_link_type / example_link_type: the "no link" sentinel or any other kind. */
  datatype LinkType = NoLink | Linked(code: int)

  /** A concept_link or example_link entry of the user's configuration. */
  datatype LinkItem = LinkItem(id: Guid, name: string, linkType: LinkType)

  /** A tone, mode, register, nuance or dialect entry. */
  datatype VocabItem = VocabItem(id: Guid, name: string)

  /** What GetAllConfigData returns for one user. */
  datatype RawConfig = RawConfig(
    conceptLinks: seq<LinkItem>, exampleLinks: seq<LinkItem>,
    tones: seq<VocabItem>, modes: seq<VocabItem>, registers: seq<VocabItem>,
    nuances: seq<VocabItem>, dialects: seq<VocabItem>)

  /** The seven name lists keyed concept_link, example_link, tone, mode,
      register, nuance and dialect. */
  datatype ConfigLists = ConfigLists(
    conceptLink: seq<string>, exampleLink: seq<string>,
    tone: seq<string>, mode: seq<string>, register: seq<string>,
    nuance: seq<string>, dialect: seq<string>)

  /** `s` is `t` with some elements left out, the rest in their order. */
  predicate IsSubsequence<X(==)>(s: seq<X>, t: seq<X>)
    decreases |t|
  {
    s == [] || (t != [] && ((s[0] == t[0] && IsSubsequence(s[1..], t[1..])) || IsSubsequence(s, t[1..])))
  }

  /** `Where(x => x.*_link_type != NoLink)`: the entries that are real links. */
  function WithoutNoLink(items: seq<LinkItem>): (r: seq<LinkItem>)
    ensures forall i :: 0 <= i < |r| ==> r[i].linkType != NoLink
    ensures forall i :: 0 <= i < |items| && items[i].linkType != NoLink ==> items[i] in r
    ensures IsSubsequence(r, items)
  {
    if items == [] then []
    else if items[0].linkType == NoLink then
      var rest := WithoutNoLink(items[1..]);
      forall i | 0 <= i < |items| && items[i].linkType != NoLink ensures items[i] in rest {
        assert items[i] == items[1..][i - 1];
      }
      rest
    else
      var rest := WithoutNoLink(items[1..]);
      var r := [items[0]] + rest;
      assert r[1..] == rest;
      forall i | 0 <= i < |items| && items[i].linkType != NoLink ensures items[i] in r {
        if i > 0 { assert items[i] == items[1..][i - 1]; }
      }
      r
  }

  /** `Select(x => x.*_name)`: each entry projected to its name. */
  function Names<X>(items: seq<X>, name: X -> string): (r: seq<string>)
    ensures |r| == |items| && forall i :: 0 <= i < |items| ==> r[i] == name(items[i])
  {
    if items == [] then [] else [name(items[0])] + Names(items[1..], name)
  }

  /** The name of a link entry. */
  function LinkName(x: LinkItem): string { x.name }

  /** The name of a vocabulary entry. */
  function VocabName(x: VocabItem): string { x.name }

  /** GetConfigData: the link lists without their "no link" entries, the other
      five lists as they are, each projected to names. */
  function GetConfigData(raw: RawConfig): (r: ConfigLists)
    ensures r.conceptLink == Names(WithoutNoLink(raw.conceptLinks), LinkName)
    ensures r.exampleLink == Names(WithoutNoLink(raw.exampleLinks), LinkName)
    ensures |r.tone| == |raw.tones| && forall i :: 0 <= i < |raw.tones| ==> r.tone[i] == raw.tones[i].name
    ensures |r.mode| == |raw.modes| && forall i :: 0 <= i < |raw.modes| ==> r.mode[i] == raw.modes[i].name
    ensures |r.register| == |raw.registers| && forall i :: 0 <= i < |raw.registers| ==> r.register[i] == raw.registers[i].name
    ensures |r.nuance| == |raw.nuances| && forall i :: 0 <= i < |raw.nuances| ==> r.nuance[i] == raw.nuances[i].name
    ensures |r.dialect| == |raw.dialects| && forall i :: 0 <= i < |raw.dialects| ==> r.dialect[i] == raw.dialects[i].name
  {
    ConfigLists(
      Names(WithoutNoLink(raw.conceptLinks), LinkName), Names(WithoutNoLink(raw.exampleLinks), LinkName),
      Names(raw.tones, VocabName), Names(raw.modes, VocabName), Names(raw.registers, VocabName),
      Names(raw.nuances, VocabName), Names(raw.dialects, VocabName))
  }

  /** Number of entries that are real links. */
  function CountLinked(items: seq<LinkItem>): nat
  {
    if items == [] then 0 else (if items[0].linkType != NoLink then 1 else 0) + CountLinked(items[1..])
  }

  /** The filter keeps exactly the real links: one name per such entry, and
      none when every entry is "no link". */
  lemma {:induction false} WithoutNoLinkCount(items: seq<LinkItem>)
    ensures |WithoutNoLink(items)| == CountLinked(items)
  {
    if items != [] {
      WithoutNoLinkCount(items[1..]);
    }
  }

  /** Filtering works entry by entry: the filter of a concatenation is the
      concatenation of the filters, so the relative order of kept entries is
      that of the configuration. */
  lemma {:induction false} WithoutNoLinkAppend(a: seq<LinkItem>, b: seq<LinkItem>)
    ensures WithoutNoLink(a + b) == WithoutNoLink(a) + WithoutNoLink(b)
  {
    if a != [] {
      assert (a + b)[1..] == a[1..] + b;
      WithoutNoLinkAppend(a[1..], b);
    } else {
      assert a + b == b;
    }
  }

  /** A list without "no link" entries is left as it is. */
  lemma {:induction false} WithoutNoLinkKeepsLinks(items: seq<LinkItem>)
    requires forall i :: 0 <= i < |items| ==> items[i].linkType != NoLink
    ensures WithoutNoLink(items) == items
  {
    if items != [] {
      WithoutNoLinkKeepsLinks(items[1..]);
    }
  }

  /** The concept-link names offered to users: no entry of type "no link"
      contributes, every other entry contributes its name, in order. */
  lemma ConceptLinkNames(raw: RawConfig)
    ensures var kept := WithoutNoLink(raw.conceptLinks);
      GetConfigData(raw).conceptLink == Names(kept, LinkName) &&
      IsSubsequence(kept, raw.conceptLinks) &&
      |kept| == CountLinked(raw.conceptLinks) &&
      (forall i :: 0 <= i < |kept| ==> kept[i].linkType != NoLink)
  {
    WithoutNoLinkCount(raw.conceptLinks);
  }
}
