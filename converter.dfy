/** The File Converter section's parser choice (app.py lines 100-102): the
    lower-cased extension of the uploaded file's name decides between the
    CSV parser and the spreadsheet parser. Parsing itself is not modelled. */
module Converter {
  import opened Text

  datatype Parser = CsvParser | SpreadsheetParser

  /** `pd.read_csv if os.path.splitext(name)[-1].lower() == ".csv" else pd.read_excel`.
      The CSV parser is chosen exactly for names with a ".csv" extension in
      any case; every other name, with another extension, with none, or a
      bare ".csv", goes to the spreadsheet parser. */
  function ChooseParser(fileName: string): (p: Parser)
    ensures p == CsvParser <==> HasCsvExtension(fileName)
    ensures p == SpreadsheetParser <==> !HasCsvExtension(fileName)
  {
    CsvTestIsCsvExtension(fileName);
    if CsvTest(fileName) then CsvParser else SpreadsheetParser
  }

  /** The test the page applies to the uploaded file's name. */
  predicate CsvTest(fileName: string)
  {
    Lower(SplitExt(fileName).1) == ".csv"
  }

  /** `e` is ".csv" in any mix of upper and lower case. */
  predicate IsCsvInAnyCase(e: string)
  {
    |e| == 4 && e[0] == '.' && (e[1] == 'c' || e[1] == 'C')
    && (e[2] == 's' || e[2] == 'S') && (e[3] == 'v' || e[3] == 'V')
  }

  /** The last path component of `stem` has a character other than a dot. */
  predicate NamedStem(stem: string)
  {
    exists i :: 0 <= i < |stem| && stem[i] != '.' && stem[i] != '/'
      && forall j :: i < j < |stem| ==> stem[j] != '/'
  }

  /** The name ends in ".csv" in any case, after a last path component that is
      not only dots. */
  predicate HasCsvExtension(fileName: string)
  {
    |fileName| >= 4 && IsCsvInAnyCase(fileName[|fileName| - 4..]) && NamedStem(fileName[..|fileName| - 4])
  }

  /** Lower-casing gives ".csv" exactly for ".csv" in any case. */
  lemma LowerIsCsv(e: string)
    ensures Lower(e) == ".csv" <==> IsCsvInAnyCase(e)
  {
  }

  /** A name that passes the page's test has a ".csv" extension in any case. */
  lemma CsvTestOnlyForCsvExtension(fileName: string)
    requires CsvTest(fileName)
    ensures HasCsvExtension(fileName)
  {
    var p := fileName;
    var sep := RFind(p, '/');
    var dot := RFind(p, '.');
    var ext := SplitExt(p).1;
    LowerIsCsv(ext);
    assert dot > sep && HasStem(p, sep, dot);
    assert ext == p[dot..] && dot == |p| - 4;
    var i := NotDotsOnly(p, sep + 1, dot);
    var stem := p[..dot];
    assert stem[i] == p[i];
    assert forall j :: i < j < |stem| ==> stem[j] == p[j];
    assert NamedStem(stem);
  }

  /** In a name with a ".csv" extension the last dot starts the extension
      and the last slash, if any, comes before the stem's non-dot character. */
  lemma CsvNameSeparators(p: string, i: int)
    requires |p| >= 4 && IsCsvInAnyCase(p[|p| - 4..])
    requires 0 <= i < |p| - 4 && p[i] != '/'
    requires forall j :: i < j < |p| - 4 ==> p[j] != '/'
    ensures RFind(p, '.') == |p| - 4
    ensures RFind(p, '/') < i
  {
  }

  /** A name with a ".csv" extension in any case passes the page's test. */
  lemma CsvExtensionPassesCsvTest(fileName: string)
    requires HasCsvExtension(fileName)
    ensures CsvTest(fileName)
  {
    var p := fileName;
    var dot := |p| - 4;
    var stem := p[..dot];
    var i :| 0 <= i < |stem| && stem[i] != '.' && stem[i] != '/'
      && forall j :: i < j < |stem| ==> stem[j] != '/';
    assert p[i] == stem[i];
    assert forall j :: i < j < dot ==> p[j] == stem[j];
    CsvNameSeparators(p, i);
    var sep := RFind(p, '/');
    if DotsOnly(p, sep + 1, dot) {
      DotsOnlyAt(p, sep + 1, dot, i);
    }
    assert HasStem(p, sep, dot);
    assert SplitExt(p).1 == p[dot..];
    LowerIsCsv(p[dot..]);
  }

  /** The page's test holds exactly for names with a ".csv" extension in any case. */
  lemma CsvTestIsCsvExtension(fileName: string)
    ensures CsvTest(fileName) <==> HasCsvExtension(fileName)
  {
    if CsvTest(fileName) {
      CsvTestOnlyForCsvExtension(fileName);
    }
    if HasCsvExtension(fileName) {
      CsvExtensionPassesCsvTest(fileName);
    }
  }

  /** The name `stem + ext` has a CSV extension when `ext` is ".csv" in any
      case and `stem` ends in a character that is neither a dot nor a slash. */
  lemma CsvNameWith(stem: string, ext: string)
    requires IsCsvInAnyCase(ext)
    requires |stem| > 0 && stem[|stem| - 1] != '.' && stem[|stem| - 1] != '/'
    ensures ChooseParser(stem + ext) == CsvParser
  {
    var p := stem + ext;
    assert p[..|p| - 4] == stem && p[|p| - 4..] == ext;
    assert NamedStem(stem);
  }

  /** ".csv" in any case picks the CSV parser. */
  lemma CsvNamesPickCsvParser()
    ensures ChooseParser("data.csv") == CsvParser
    ensures ChooseParser("Report.CSV") == CsvParser
  {
    CsvNameWith("data", ".csv");
    assert "data" + ".csv" == "data.csv";
    CsvNameWith("Report", ".CSV");
    assert "Report" + ".CSV" == "Report.CSV";
  }

  /** A workbook, a name without extension and a bare ".csv" (a leading-dot
      name, which has no extension) pick the spreadsheet parser. */
  lemma OtherNamesPickSpreadsheetParser()
    ensures ChooseParser("book.xlsx") == SpreadsheetParser
    ensures ChooseParser("notes") == SpreadsheetParser
    ensures ChooseParser(".csv") == SpreadsheetParser
  {
  }
}
