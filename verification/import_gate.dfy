/** The entry of an import (TemplateService.ImportDictionary): the target
    dictionary falls back to the session's current one, the upload must be an
    `.xlsx` file carrying the template's token property, and only then are the
    rows processed. */
module ImportGate {
  import opened Common
  import opened ConfigData
  import opened ImportRules
  import opened ImportPass

  /** FileExtension.Excel2007. */
  const ExcelExtension: string := ".xlsx"

  /** The error codes this entry reports. */
  datatype ErrorCode = Err9001

  /** IServiceResult of an import: the error, or what the passes yielded (the
      annotated workbook itself is the caller's `Workbook`). */
  datatype ImportResponse = Rejected(code: ErrorCode) | Imported(outcome: ImportOutcome)

  /** An IFormFile: its client-side name and the workbook opened from its stream. */
  datatype UploadedFile = UploadedFile(fileName: string, workbook: Workbook)

  /** A directory separator, where Path.GetExtension stops looking for a period. */
  predicate IsSeparator(c: char)
  {
    c == '/' || c == '\\'
  }

  /** `path[j..]` is an extension: a period that is not the last character,
      followed only by characters that are neither periods nor separators. */
  predicate ExtensionAt(path: string, j: int)
  {
    0 <= j < |path| - 1 && path[j] == '.' &&
    forall k :: j < k < |path| ==> path[k] != '.' && !IsSeparator(path[k])
  }

  /** Path.GetExtension, scanning `path[..i]` backwards; the characters from `i`
      on have been passed over already. */
  function ExtensionScan(path: string, i: int): (r: string)
    requires 0 <= i <= |path|
    requires forall k :: i <= k < |path| ==> path[k] != '.' && !IsSeparator(path[k])
    ensures r == "" || exists j :: 0 <= j < i && ExtensionAt(path, j) && r == path[j..]
    ensures forall j :: 0 <= j < i && ExtensionAt(path, j) ==> r == path[j..]
    decreases i
  {
    if i == 0 then ""
    else if path[i - 1] == '.' then
      if i - 1 != |path| - 1 then path[i - 1..] else ""
    else if IsSeparator(path[i - 1]) then ""
    else ExtensionScan(path, i - 1)
  }

  /** Path.GetExtension: the text from the last period of the file name on,
      empty when the name has no period after its last separator or ends in one. */
  function GetExtension(path: string): (r: string)
    ensures r == "" || exists j :: ExtensionAt(path, j) && r == path[j..]
    ensures forall j :: ExtensionAt(path, j) ==> r == path[j..]
  {
    ExtensionScan(path, |path|)
  }

  /** The extension check accepts exactly the names ending in `.xlsx`. */
  lemma {:induction false} ExcelExtensionIff(path: string)
    ensures GetExtension(path) == ExcelExtension <==> |path| >= 5 && path[|path| - 5..] == ExcelExtension
  {
    if |path| >= 5 && path[|path| - 5..] == ExcelExtension {
      var j := |path| - 5;
      forall k | j < k < |path|
        ensures path[k] != '.' && !IsSeparator(path[k])
      {
        assert path[k] == ExcelExtension[k - j];
      }
      assert ExtensionAt(path, j);
    }
    if GetExtension(path) == ExcelExtension {
      var j :| ExtensionAt(path, j) && ExcelExtension == path[j..];
      assert |path| - j == 5;
    }
  }

  /** The token check: the custom property is present and its text is the expected value. */
  predicate TokenMatches(customProperties: map<string, string>, tokenName: string, tokenValue: string)
    ensures tokenName !in customProperties ==> !TokenMatches(customProperties, tokenName, tokenValue)
    ensures TokenMatches(customProperties, tokenName, tokenValue) ==> customProperties[tokenName] == tokenValue
  {
    tokenName in customProperties && customProperties[tokenName] == tokenValue
  }

  /** Both structural checks pass: a file was given, its name has the Excel
      extension, and its workbook carries the token. */
  predicate UploadAccepted(file: Option<UploadedFile>, tokenName: string, tokenValue: string)
    ensures file.None? ==> !UploadAccepted(file, tokenName, tokenValue)
    ensures UploadAccepted(file, tokenName, tokenValue) ==>
      GetExtension(file.value.fileName) == ExcelExtension &&
      TokenMatches(file.value.workbook.customProperties, tokenName, tokenValue)
  {
    file.Some? && GetExtension(file.value.fileName) == ExcelExtension &&
    TokenMatches(file.value.workbook.customProperties, tokenName, tokenValue)
  }

  /** An upload gets past the gate exactly when there is a file whose name ends
      in `.xlsx` and whose token property holds the expected value; a missing
      file, any other extension, a missing token or a wrong one is refused. */
  lemma UploadAcceptedIff(file: Option<UploadedFile>, tokenName: string, tokenValue: string)
    ensures UploadAccepted(file, tokenName, tokenValue) <==>
      file.Some? && |file.value.fileName| >= 5 && file.value.fileName[|file.value.fileName| - 5..] == ExcelExtension &&
      tokenName in file.value.workbook.customProperties &&
      file.value.workbook.customProperties[tokenName] == tokenValue
  {
    if file.Some? {
      ExcelExtensionIff(file.value.fileName);
    }
  }

  /** The dictionary imported into: the requested one, or the session's current
      one when none is given. */
  function TargetDictionary(dictionaryId: Option<Guid>, currentDictionaryId: Guid): (id: Guid)
    ensures dictionaryId.Some? ==> id == dictionaryId.value
    ensures dictionaryId.None? ==> id == currentDictionaryId
  {
    dictionaryId.GetOr(currentDictionaryId)
  }

  /** ImportDictionary: a refused upload yields Err9001 and touches neither the
      workbook nor the id supply; an accepted one runs the four passes on it. */
  method ImportDictionary(dictionaryId: Option<Guid>, currentDictionaryId: Guid, file: Option<UploadedFile>,
                          tokenName: string, tokenValue: string, config: RawConfig, v: Validators,
                          stripHtml: string -> string, now: DateTime, ids: GuidSupply)
    returns (response: ImportResponse)
    requires ValidatorsSound(v)
    modifies (if file.Some? then file.value.workbook.Sheets() else {}), ids
    ensures !UploadAccepted(file, tokenName, tokenValue) ==>
      response == Rejected(Err9001) && ids.next == old(ids.next) &&
      (file.Some? ==> unchanged(file.value.workbook.Sheets()))
    ensures UploadAccepted(file, tokenName, tokenValue) ==>
      var p := Pass(file.value.workbook, config, v, stripHtml,
                    TargetDictionary(dictionaryId, currentDictionaryId), now, old(ids.next));
      response == Imported(Outcome(p)) && Annotated(file.value.workbook, p) &&
      ids.next == old(ids.next) + |response.outcome.concepts| + |response.outcome.examples|
  {
    var dictId := TargetDictionary(dictionaryId, currentDictionaryId);

    if file.None? || GetExtension(file.value.fileName) != ExcelExtension {
      return Rejected(Err9001);
    }

    var wb := file.value.workbook;
    if !TokenMatches(wb.customProperties, tokenName, tokenValue) {
      return Rejected(Err9001);
    }

    var outcome := HandleImportData(wb, dictId, now, config, v, stripHtml, ids);
    response := Imported(outcome);
  }
}
