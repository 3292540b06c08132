/** The name of an exported workbook: the dictionary name, normalised, followed
    by a `yyyyMMdd'T'HHmmss` time stamp, both placed into the export-file
    pattern (TemplateService.GetExportFileName). */
module ExportName {
  import opened Common

  /** Longest normalised dictionary name kept in a file name. */
  const MaxNameLength: nat := 20

  /** Length of a `yyyyMMdd'T'HHmmss` stamp. */
  const StampLength: nat := 15

  /** The export-file format string, `before{0}between{1}after`: the literal text
      around the name (argument 0) and the stamp (argument 1). */
  datatype ExportPattern = ExportPattern(before: string, between: string, after: string)

  /** `s.Replace(' ', '_')`. */
  function ReplaceSpaces(s: string): (r: string)
    ensures |r| == |s|
    ensures forall i :: 0 <= i < |s| ==> r[i] == (if s[i] == ' ' then '_' else s[i])
    ensures forall i :: 0 <= i < |r| ==> r[i] != ' '
  {
    if s == [] then [] else [if s[0] == ' ' then '_' else s[0]] + ReplaceSpaces(s[1..])
  }

  /** The name part of an export file name: a null name reads as empty, every
      space becomes `_`, and at most the first 20 characters are kept. */
  function NormalizeName(dictionaryName: Option<string>): (r: string)
    ensures var raw := dictionaryName.GetOr("");
      |r| == (if |raw| > MaxNameLength then MaxNameLength else |raw|) &&
      forall i :: 0 <= i < |r| ==> r[i] == (if raw[i] == ' ' then '_' else raw[i])
    ensures forall i :: 0 <= i < |r| ==> r[i] != ' '
  {
    var normalized := ReplaceSpaces(dictionaryName.GetOr(""));
    if |normalized| > MaxNameLength then normalized[..MaxNameLength] else normalized
  }

  predicate IsDigit(c: char) {
    '0' <= c <= '9'
  }

  function Pow10(n: nat): (r: nat)
    ensures r >= 1
  {
    if n == 0 then 1 else 10 * Pow10(n - 1)
  }

  /** `n` written with exactly `width` decimal digits, zero-padded on the left
      (the `yyyy`, `MM`, `dd`, `HH`, `mm`, `ss` specifiers). */
  function Pad(n: nat, width: nat): (s: string)
    ensures |s| == width
    ensures forall i :: 0 <= i < |s| ==> IsDigit(s[i])
  {
    if width == 0 then "" else Pad(n / 10, width - 1) + [('0' as int + n % 10) as char]
  }

  /** The number a string of decimal digits denotes. */
  function DigitsValue(s: string): nat
    requires forall i :: 0 <= i < |s| ==> IsDigit(s[i])
  {
    if s == [] then 0
    else
      assert IsDigit(s[|s| - 1]);
      DigitsValue(s[..|s| - 1]) * 10 + (s[|s| - 1] as int - '0' as int)
  }

  /** Padding loses nothing when the number fits the width. */
  lemma {:induction false} PadRoundTrip(n: nat, width: nat)
    requires n < Pow10(width)
    ensures DigitsValue(Pad(n, width)) == n
  {
    if width > 0 {
      PadRoundTrip(n / 10, width - 1);
      var s := Pad(n, width);
      assert s[..|s| - 1] == Pad(n / 10, width - 1);
    }
  }

  /** `dateTime.ToString("yyyyMMdd'T'HHmmss")`. */
  function FormatStamp(t: DateTime): (s: string)
    ensures |s| == StampLength && s[8] == 'T'
    ensures forall i :: 0 <= i < |s| && i != 8 ==> IsDigit(s[i])
  {
    Pad(t.year, 4) + Pad(t.month, 2) + Pad(t.day, 2) + "T" + Pad(t.hour, 2) + Pad(t.minute, 2) + Pad(t.second, 2)
  }

  /** Reads a `yyyyMMdd'T'HHmmss` stamp back; None when `s` is not one. */
  function ParseStamp(s: string): Option<DateTime>
  {
    if |s| == StampLength && s[8] == 'T' && forall i :: 0 <= i < |s| && i != 8 ==> IsDigit(s[i]) then
      var t := Instant(DigitsValue(s[0..4]), DigitsValue(s[4..6]), DigitsValue(s[6..8]),
                       DigitsValue(s[9..11]), DigitsValue(s[11..13]), DigitsValue(s[13..15]));
      if t.InRange() then Some(t) else None
    else None
  }

  /** The stamp identifies the instant: formatting then reading gives it back,
      so two instants with different fields never share a stamp. */
  lemma StampRoundTrip(t: DateTime)
    ensures ParseStamp(FormatStamp(t)) == Some(t)
  {
    var s := FormatStamp(t);
    var head := Pad(t.year, 4) + Pad(t.month, 2) + Pad(t.day, 2) + "T" + Pad(t.hour, 2) + Pad(t.minute, 2);
    assert s == head + Pad(t.second, 2) && |head| == 13;
    assert Pow10(2) == 100 && Pow10(4) == 10000;
    assert s[0..4] == Pad(t.year, 4);
    assert s[4..6] == Pad(t.month, 2);
    assert s[6..8] == Pad(t.day, 2);
    assert s[9..11] == Pad(t.hour, 2);
    assert s[11..13] == Pad(t.minute, 2);
    assert s[13..15] == Pad(t.second, 2);
    PadRoundTrip(t.year, 4);
    PadRoundTrip(t.month, 2);
    PadRoundTrip(t.day, 2);
    PadRoundTrip(t.hour, 2);
    PadRoundTrip(t.minute, 2);
    PadRoundTrip(t.second, 2);
  }

  /** GetExportFileName: the normalised name and the stamp of `dateTime`
      (or of the clock's reading when no time is given) put into the pattern. */
  function GetExportFileName(pattern: ExportPattern, dictionaryName: Option<string>,
                             dateTime: Option<DateTime>, clockNow: DateTime): (r: string)
    ensures |r| == |pattern.before| + |NormalizeName(dictionaryName)| + |pattern.between| + StampLength + |pattern.after|
  {
    pattern.before + NormalizeName(dictionaryName) + pattern.between
      + FormatStamp(dateTime.GetOr(clockNow)) + pattern.after
  }

  /** Takes an export file name apart again: the name part and the instant of
      the stamp, or None when `fileName` does not fit the pattern. */
  function SplitExportFileName(pattern: ExportPattern, fileName: string): Option<(string, DateTime)>
  {
    var fixedLength := |pattern.before| + |pattern.between| + StampLength + |pattern.after|;
    if |fileName| < fixedLength then None
    else
      var stampEnd := |fileName| - |pattern.after|;
      var stampStart := stampEnd - StampLength;
      var nameEnd := stampStart - |pattern.between|;
      if fileName[..|pattern.before|] == pattern.before
         && fileName[nameEnd..stampStart] == pattern.between
         && fileName[stampEnd..] == pattern.after
      then
        match ParseStamp(fileName[stampStart..stampEnd])
        case Some(t) => Some((fileName[|pattern.before|..nameEnd], t))
        case None => None
      else None
  }

  /** Each of five concatenated strings is the slice between its neighbours. */
  lemma ConcatParts(a: string, b: string, c: string, d: string, e: string)
    ensures var f := a + b + c + d + e;
      f[..|a|] == a && f[|a|..|a| + |b|] == b && f[|a| + |b|..|a| + |b| + |c|] == c &&
      f[|a| + |b| + |c|..|f| - |e|] == d && f[|f| - |e|..] == e
  {
    var f := a + b + c + d + e;
    var x, y, z := a + b, a + b + c, a + b + c + d;
    assert f[..|z|] == z && z[..|y|] == y && y[..|x|] == x;
    assert f[..|a|] == x[..|a|];
    assert f[|a|..|x|] == x[|a|..];
    assert f[|x|..|y|] == y[|x|..];
    assert f[|y|..|z|] == z[|y|..];
  }

  /** The file name is a deterministic function of name and time that puts the
      normalised name before the stamp: both can be read back from it. */
  lemma ExportFileNameRoundTrip(pattern: ExportPattern, dictionaryName: Option<string>,
                                dateTime: Option<DateTime>, clockNow: DateTime)
    ensures SplitExportFileName(pattern, GetExportFileName(pattern, dictionaryName, dateTime, clockNow))
            == Some((NormalizeName(dictionaryName), dateTime.GetOr(clockNow)))
  {
    var name := NormalizeName(dictionaryName);
    var t := dateTime.GetOr(clockNow);
    var stamp := FormatStamp(t);
    ConcatParts(pattern.before, name, pattern.between, stamp, pattern.after);
    StampRoundTrip(t);
  }

  /** A name longer than 20 characters is cut to the replaced form of its
      first 20 characters. */
  lemma LongNameCut(raw: string, expected: string)
    requires |raw| > MaxNameLength && |expected| == MaxNameLength
    requires forall i :: 0 <= i < MaxNameLength ==> expected[i] == (if raw[i] == ' ' then '_' else raw[i])
    ensures NormalizeName(Some(raw)) == expected
  {
  }

  /** The fields of the documented stamp, each padded to its width. */
  lemma StampFields()
    ensures Pad(2024, 4) == "2024" && Pad(1, 2) == "01" && Pad(15, 2) == "15"
    ensures Pad(9, 2) == "09" && Pad(30, 2) == "30" && Pad(0, 2) == "00"
  {
  }

  /** The documented stamp: 15 January 2024, 09:30:00 is written "20240115T093000". */
  lemma StampExample()
    ensures FormatStamp(Instant(2024, 1, 15, 9, 30, 0)) == "20240115T093000"
  {
    StampFields();
  }

  /** The example of the documentation: a 26-character name keeps its first 20
      characters, with the spaces replaced. */
  lemma LongNameExample()
    ensures NormalizeName(Some("My Dictionary Name Is Long")) == "My_Dictionary_Name_I"
  {
    LongNameCut("My Dictionary Name Is Long", "My_Dictionary_Name_I");
  }
}
