/**
 * The data logic of the PathwayMatcher entry point: its run settings and
 * their defaults, output-path normalisation, the validation of RSID and
 * chromosome/base-pair input rows, the parsing of a chromosome/base-pair
 * row, and the serialisation of search results as tab-separated lines.
 *
 * The output file is a Writer that accumulates the characters written to
 * it; the logger is the sequence of warnings a loop returns.
 */
module PathwayMatcher {
  import opened Wrappers
  import opened JavaText
  import opened PapModel

  /** The column separator of every output file. */
  const Separator: string := "\t"

  /** A buffered writer: the text written so far and the line separator `newLine` writes. */
  class Writer {
    const eol: string
    var written: string

    constructor (eol: string)
      ensures this.eol == eol && written == ""
    {
      this.eol := eol;
      written := "";
    }

    method Write(s: string)
      modifies this
      ensures written == old(written) + s
    {
      written := written + s;
    }

    method NewLine()
      modifies this
      ensures written == old(written) + eol
    {
      written := written + eol;
    }
  }

  /** `outputPath.endsWith("/") ? outputPath : outputPath + "/"`. */
  function NormalizeOutputPath(path: string): (r: string)
    ensures EndsWith(r, "/")
    ensures |path| <= |r| <= |path| + 1 && r[..|path|] == path
    ensures EndsWith(path, "/") ==> r == path
  {
    if EndsWith(path, "/") then path else path + "/"
  }

  /** Normalising a normalised path leaves it unchanged. */
  lemma NormalizeOutputPathIdempotent(path: string)
    ensures NormalizeOutputPath(NormalizeOutputPath(path)) == NormalizeOutputPath(path)
  {
  }

  /** The run settings the entry point keeps in static fields. */
  class Driver {
    var input: seq<string>
    var outputPath: string
    var matchType: MatchType
    var margin: int

    /** The initial values: no output directory, SUPERSET matching, margin 0. */
    constructor ()
      ensures input == [] && outputPath == "" && matchType == Superset && margin == 0
    {
      input := [];
      outputPath := "";
      matchType := Superset;
      margin := 0;
    }

    /**
     * Stores the lines read from the input file. The loop that follows
     * trims each line into a local variable only, so the stored lines keep
     * their padding.
     */
    method ReadInput(lines: seq<string>)
      modifies this`input
      ensures input == lines
    {
      input := lines;
      for i := 0 to |input| {
        var line := input[i];
        line := Trim(line);
      }
    }

    /** With the -o option its value becomes the output path, ending with "/". */
    method SetOutputPath(option: Option<string>)
      modifies this`outputPath
      ensures outputPath == if option.Some? then NormalizeOutputPath(option.value) else old(outputPath)
    {
      if option.Some? {
        outputPath := option.value;
        outputPath := if EndsWith(outputPath, "/") then outputPath else outputPath + "/";
      }
    }
  }

  /** A row both loops keep: non-empty and accepted by the pattern of the input type. */
  predicate Accepts(line: string, isValid: string -> bool) {
    line != "" && isValid(line)
  }

  /** The warning, if any, for one row with its 1-based number. */
  function RowWarning(line: string, row: int, isValid: string -> bool): seq<Warning>
  {
    if line == "" then [Warning(EmptyRow, row)]
    else if !isValid(line) then [Warning(InvalidRow, row)]
    else []
  }

  /** The warnings the validation loops send for `rows`, numbered from 1. */
  function RowWarnings(rows: seq<string>, isValid: string -> bool): seq<Warning>
  {
    if rows == [] then []
    else RowWarnings(rows[..|rows| - 1], isValid) + RowWarning(rows[|rows| - 1], |rows|, isValid)
  }

  /** Every warning reports a row between 1 and the number of rows. */
  lemma {:induction false} RowWarningsRange(rows: seq<string>, isValid: string -> bool)
    ensures forall w :: w in RowWarnings(rows, isValid) ==> 1 <= w.row <= |rows|
  {
    if rows != [] {
      RowWarningsRange(rows[..|rows| - 1], isValid);
    }
  }

  /**
   * The row at index k gets EMPTY_ROW iff it is empty and INVALID_ROW iff it
   * is non-empty and fails the pattern, either reporting row k + 1.
   */
  lemma {:induction false} RowWarningsIff(rows: seq<string>, isValid: string -> bool)
    ensures forall k :: 0 <= k < |rows| ==>
              (Warning(EmptyRow, k + 1) in RowWarnings(rows, isValid) <==> rows[k] == "")
              && (Warning(InvalidRow, k + 1) in RowWarnings(rows, isValid) <==> rows[k] != "" && !isValid(rows[k]))
  {
    if rows != [] {
      var n := |rows| - 1;
      var init := rows[..n];
      RowWarningsIff(init, isValid);
      RowWarningsRange(init, isValid);
      forall k | 0 <= k < n
        ensures init[k] == rows[k]
      {
      }
    }
  }

  /** Warnings are sent in row order, at most one per row. */
  lemma {:induction false} RowWarningsInOrder(rows: seq<string>, isValid: string -> bool)
    ensures RowsIncrease(RowWarnings(rows, isValid))
  {
    if rows != [] {
      var n := |rows| - 1;
      var init := rows[..n];
      RowWarningsInOrder(init, isValid);
      RowWarningsRange(init, isValid);
      var before := RowWarnings(init, isValid);
      var ws := RowWarnings(rows, isValid);
      var last := RowWarning(rows[n], n + 1, isValid);
      assert ws == before + last;
      forall a, b | 0 <= a < b < |ws|
        ensures ws[a].row < ws[b].row
      {
        assert ws[a] == before[a] && before[a] in before;
        if b < |before| {
          assert ws[b] == before[b];
          assert before[a].row < before[b].row;
        } else {
          assert ws[b] == last[0];
        }
      }
    }
  }

  /** The distinct rows the pattern accepts. */
  function AcceptedRows(rows: seq<string>, isValid: string -> bool): set<string> {
    set line | line in rows && Accepts(line, isValid)
  }

  /** One more row joins the accepted rows iff it is accepted. */
  lemma AcceptedRowsSnoc(rows: seq<string>, line: string, isValid: string -> bool)
    ensures AcceptedRows(rows + [line], isValid)
            == AcceptedRows(rows, isValid) + (if Accepts(line, isValid) then {line} else {})
  {
    assert forall x :: x in rows + [line] <==> x in rows || x == line;
  }

  /**
   * The RSID case: the set of distinct non-empty rows the RSID pattern
   * accepts, and a warning for every other row.
   */
  method CollectRsIds(input: seq<string>, isRsid: string -> bool)
    returns (rsIdSet: set<string>, warnings: seq<Warning>)
    ensures rsIdSet == AcceptedRows(input, isRsid)
    ensures warnings == RowWarnings(input, isRsid)
  {
    rsIdSet := {};
    warnings := [];
    var row := 0;
    for i := 0 to |input|
      invariant row == i
      invariant rsIdSet == AcceptedRows(input[..i], isRsid)
      invariant warnings == RowWarnings(input[..i], isRsid)
    {
      var rsid := input[i];
      row := row + 1;
      assert input[..i + 1] == input[..i] + [rsid];
      AcceptedRowsSnoc(input[..i], rsid, isRsid);
      if rsid == "" {
        warnings := warnings + [Warning(EmptyRow, row)];
        continue;
      }
      if !isRsid(rsid) {
        warnings := warnings + [Warning(InvalidRow, row)];
        continue;
      }
      rsIdSet := rsIdSet + {rsid};
    }
    assert input[..|input|] == input;
  }

  /**
   * `getSnpFromChrBp`: the chromosome is the first field of the row split
   * at single whitespace characters, read as an Integer, and the base pair
   * the second field, read as a Long. None stands for the exception the
   * Java code throws when there is no second field or a field is not a
   * number in range.
   */
  function GetSnpFromChrBp(line: string): (snp: Option<Snp>)
    ensures snp.Some? ==> IntMin <= snp.value.chr <= IntMax && LongMin <= snp.value.bp <= LongMax
  {
    var fields := RegexSplit(line, IsRegexWhitespace);
    if |fields| < 2 then None
    else
      match ParseDecimal(fields[0], IntMin, IntMax)
      case None => None
      case Some(chr) =>
        match ParseDecimal(fields[1], LongMin, LongMax)
        case None => None
        case Some(bp) => Some(Snp(chr, bp))
  }

  /**
   * A row without two whitespace-separated fields reads as nothing; any
   * other row reads as a variant iff its first field is a decimal in Integer
   * range and its second one a decimal in Long range.
   */
  lemma SnpReadIff(line: string)
    ensures |RegexSplit(line, IsRegexWhitespace)| < 2 ==> GetSnpFromChrBp(line).None?
    ensures |RegexSplit(line, IsRegexWhitespace)| >= 2 ==>
              (GetSnpFromChrBp(line).Some? <==>
                 ParseDecimal(RegexSplit(line, IsRegexWhitespace)[0], IntMin, IntMax).Some? &&
                 ParseDecimal(RegexSplit(line, IsRegexWhitespace)[1], LongMin, LongMax).Some?)
  {
  }

  /**
   * A row written as chromosome, whitespace, base pair, and optionally
   * further whitespace-separated columns, reads back as that variant.
   */
  lemma SnpRowRoundTrip(chr: int, bp: int, w: char, tail: string)
    requires IntMin <= chr <= IntMax && LongMin <= bp <= LongMax
    requires IsRegexWhitespace(w)
    requires tail == [] || IsRegexWhitespace(tail[0])
    ensures GetSnpFromChrBp(ShowInt(chr) + [w] + ShowInt(bp) + tail) == Some(Snp(chr, bp))
  {
    ShowIntNoWhitespace(chr);
    ShowIntNoWhitespace(bp);
    RegexSplitTwoFields(ShowInt(chr), w, ShowInt(bp), tail, IsRegexWhitespace);
    ParseShow(chr, IntMin, IntMax);
    ParseShow(bp, LongMin, LongMax);
  }

  /** The (chromosome, base pair) pairs a multimap from chromosome to base pairs holds. */
  function Entries(m: map<int, set<int>>): set<Snp>
  {
    set chr, bp | chr in m && bp in m[chr] :: Snp(chr, bp)
  }

  /** A multimap holds a chromosome only while some base pair is stored under it. */
  predicate NoEmptyValues(m: map<int, set<int>>) {
    forall chr :: chr in m ==> m[chr] != {}
  }

  /** TreeMultimap.put: adds one base pair under its chromosome. */
  function Put(m: map<int, set<int>>, chr: int, bp: int): (r: map<int, set<int>>)
    ensures Entries(r) == Entries(m) + {Snp(chr, bp)}
    ensures r.Keys == m.Keys + {chr}
    ensures NoEmptyValues(m) ==> NoEmptyValues(r)
  {
    var r := m[chr := (if chr in m then m[chr] else {}) + {bp}];
    assert forall s :: s in Entries(r) <==> s in Entries(m) || s == Snp(chr, bp) by {
      forall s
        ensures s in Entries(r) <==> s in Entries(m) || s == Snp(chr, bp)
      {
        if s in Entries(m) {
          assert s.chr in r && s.bp in r[s.chr];
        }
        if s == Snp(chr, bp) {
          assert chr in r && bp in r[chr];
        }
      }
    }
    r
  }

  /**
   * The readings `read` gives for the rows the pattern accepts. The row
   * reader is a parameter so that the lemmas below need nothing of it.
   */
  function Readings(rows: seq<string>, isChrBp: string -> bool, read: string -> Option<Snp>): set<Snp>
  {
    set line | line in rows && Accepts(line, isChrBp) && read(line).Some? :: read(line).value
  }

  /** The variants of the rows the chromosome/base-pair pattern accepts. */
  function AcceptedSnps(rows: seq<string>, isChrBp: string -> bool): set<Snp>
  {
    Readings(rows, isChrBp, GetSnpFromChrBp)
  }

  /** The reading one row contributes: when the row is kept and readable, none otherwise. */
  function RowReading(line: string, isChrBp: string -> bool, read: string -> Option<Snp>): set<Snp> {
    if Accepts(line, isChrBp) && read(line).Some? then {read(line).value} else {}
  }

  /** The readings of the kept rows, collected row by row as the CHRBP loop does. */
  function ReadRows(rows: seq<string>, isChrBp: string -> bool, read: string -> Option<Snp>): set<Snp>
  {
    if rows == [] then {}
    else ReadRows(rows[..|rows| - 1], isChrBp, read) + RowReading(rows[|rows| - 1], isChrBp, read)
  }

  /** One more row adds its reading iff the row is kept. */
  lemma ReadingsSnoc(rows: seq<string>, line: string, isChrBp: string -> bool, read: string -> Option<Snp>)
    ensures Readings(rows + [line], isChrBp, read) == Readings(rows, isChrBp, read) + RowReading(line, isChrBp, read)
  {
    var rows' := rows + [line];
    assert forall x :: x in rows' <==> x in rows || x == line;
  }

  /** Collecting row by row gives the readings of the accepted rows. */
  lemma {:induction false} ReadRowsAccepted(rows: seq<string>, isChrBp: string -> bool, read: string -> Option<Snp>)
    ensures ReadRows(rows, isChrBp, read) == Readings(rows, isChrBp, read)
  {
    if rows != [] {
      var n := |rows| - 1;
      var init, last := rows[..n], rows[n];
      ReadRowsAccepted(init, isChrBp, read);
      ReadingsSnoc(init, last, isChrBp, read);
      assert init + [last] == rows;
    }
  }

  /** A multimap holding the readings collected row by row holds the variants of the accepted rows. */
  lemma CollectedAreAccepted(m: map<int, set<int>>, rows: seq<string>, isChrBp: string -> bool)
    requires Entries(m) == ReadRows(rows, isChrBp, GetSnpFromChrBp)
    ensures Entries(m) == AcceptedSnps(rows, isChrBp)
  {
    ReadRowsAccepted(rows, isChrBp, GetSnpFromChrBp);
  }

  /**
   * The CHRBP case: the multimap from chromosome to the base pairs of the
   * non-empty rows the pattern accepts, and a warning for every other row.
   * The Java code expects the pattern to admit only rows getSnpFromChrBp
   * can read, and required of its rows here.
   */
  method CollectChrBps(input: seq<string>, isChrBp: string -> bool)
    returns (chrBpMap: map<int, set<int>>, warnings: seq<Warning>)
    requires forall line {:trigger GetSnpFromChrBp(line)} :: line in input && Accepts(line, isChrBp) ==> GetSnpFromChrBp(line).Some?
    ensures Entries(chrBpMap) == AcceptedSnps(input, isChrBp)
    ensures NoEmptyValues(chrBpMap)
    ensures warnings == RowWarnings(input, isChrBp)
  {
    chrBpMap := map[];
    warnings := [];
    var row := 0;
    for i := 0 to |input|
      invariant row == i
      invariant Entries(chrBpMap) == ReadRows(input[..i], isChrBp, GetSnpFromChrBp)
      invariant NoEmptyValues(chrBpMap)
      invariant warnings == RowWarnings(input[..i], isChrBp)
    {
      var line := input[i];
      row := row + 1;
      assert input[..i + 1][..i] == input[..i];
      if line == "" {
        warnings := warnings + [Warning(EmptyRow, row)];
        continue;
      }
      if !isChrBp(line) {
        warnings := warnings + [Warning(InvalidRow, row)];
        continue;
      }
      var snp := GetSnpFromChrBp(line);
      chrBpMap := Put(chrBpMap, snp.value.chr, snp.value.bp);
    }
    assert input[..|input|] == input;
    CollectedAreAccepted(chrBpMap, input, isChrBp);
  }

  /** The text writeSearchResults adds for `rows`: each row's fields joined by tabs, then a line end. */
  function SearchText(rows: seq<seq<string>>, eol: string): string
  {
    if rows == [] then ""
    else SearchText(rows[..|rows| - 1], eol) + Join(Separator, rows[|rows| - 1]) + eol
  }

  /** The inner loop of writeSearchResults: the fields of one row, a separator before all but the first. */
  method WriteFields(out: Writer, r: seq<string>)
    modifies out
    ensures out.written == old(out.written) + Join(Separator, r)
  {
    ghost var lineStart := out.written;
    for i := 0 to |r|
      invariant out.written == lineStart + Join(Separator, r[..i])
    {
      ghost var done := Join(Separator, r[..i]);
      if i > 0 {
        out.Write(Separator);
      }
      out.Write(r[i]);
      assert r[..i + 1] == r[..i] + [r[i]];
      JoinSnoc(Separator, r[..i], r[i]);
      if i > 0 {
        assert lineStart + done + Separator + r[i] == lineStart + (done + Separator + r[i]);
      } else {
        assert done == "" && r[..i] == [];
      }
    }
    assert r[..|r|] == r;
  }

  /** `writeSearchResults`: writes every row, in order, as one tab-separated line. */
  method WriteSearchResults(out: Writer, searchResult: seq<seq<string>>)
    modifies out
    ensures out.written == old(out.written) + SearchText(searchResult, out.eol)
  {
    ghost var start := out.written;
    for k := 0 to |searchResult|
      invariant out.written == start + SearchText(searchResult[..k], out.eol)
    {
      var r := searchResult[k];
      ghost var before := SearchText(searchResult[..k], out.eol);
      WriteFields(out, r);
      out.NewLine();
      assert searchResult[..k + 1][..k] == searchResult[..k];
      assert start + before + Join(Separator, r) + out.eol == start + (before + Join(Separator, r) + out.eol);
    }
    assert searchResult[..|searchResult|] == searchResult;
  }

  /** The separator test for one given character. */
  function SameChar(c: char): char -> bool {
    d => d == c
  }

  /** A field that holds neither a tab nor the line-end character `c`. */
  predicate CleanField(f: string, c: char) {
    forall k :: 0 <= k < |f| ==> f[k] != '\t' && f[k] != c
  }

  /** Reads the text back: split into lines at `c`, drop the last (empty) piece, split each line at tabs. */
  function DecodeSearchText(text: string, c: char): seq<seq<string>>
  {
    var lines := Split(text, SameChar(c));
    seq(|lines| - 1, i requires 0 <= i < |lines| - 1 => Split(lines[i], SameChar('\t')))
  }

  /** The lines of the rows, without line ends. */
  function SearchLines(rows: seq<seq<string>>): (lines: seq<string>)
    ensures |lines| == |rows|
  {
    seq(|rows|, i requires 0 <= i < |rows| => Join(Separator, rows[i]))
  }

  /** With a one-character line end, the search text is the lines joined by it, plus a final line end. */
  lemma {:induction false} SearchTextIsJoinedLines(rows: seq<seq<string>>, c: char)
    ensures SearchText(rows, [c]) == Join([c], SearchLines(rows) + [""])
  {
    if rows != [] {
      var n := |rows| - 1;
      var init := rows[..n];
      SearchTextIsJoinedLines(init, c);
      var l := Join(Separator, rows[n]);
      assert SearchLines(rows) == SearchLines(init) + [l];
      assert SearchLines(rows) + [""] == (SearchLines(init) + [l]) + [""];
      JoinSnoc([c], SearchLines(init) + [l], "");
      JoinSnoc([c], SearchLines(init), l);
      JoinSnoc([c], SearchLines(init), "");
    }
  }

  /** Joining fields free of a separator class with a separator outside it gives text free of it. */
  lemma {:induction false} JoinKeepsOut(sep: string, fields: seq<string>, isSep: char -> bool)
    requires NoSeparator(sep, isSep)
    requires forall i :: 0 <= i < |fields| ==> NoSeparator(fields[i], isSep)
    ensures NoSeparator(Join(sep, fields), isSep)
  {
    if |fields| >= 2 {
      JoinKeepsOut(sep, fields[1..], isSep);
      var rest := Join(sep, fields[1..]);
      var s := fields[0] + sep + rest;
      forall k | 0 <= k < |s|
        ensures !isSep(s[k])
      {
        if k < |fields[0]| {
        } else if k < |fields[0]| + |sep| {
          assert s[k] == sep[k - |fields[0]|];
        } else {
          assert s[k] == rest[k - |fields[0]| - |sep|];
        }
      }
    }
  }

  /**
   * What writeSearchResults writes reads back as the rows it was given,
   * when the line end is one character other than a tab and no field holds
   * a tab or that character (every row has at least one field).
   */
  lemma SearchTextDecodes(rows: seq<seq<string>>, c: char)
    requires c != '\t'
    requires forall i :: 0 <= i < |rows| ==> |rows[i]| >= 1
    requires forall i, j :: 0 <= i < |rows| && 0 <= j < |rows[i]| ==> CleanField(rows[i][j], c)
    ensures DecodeSearchText(SearchText(rows, [c]), c) == rows
  {
    var lines := SearchLines(rows) + [""];
    forall i | 0 <= i < |lines|
      ensures NoSeparator(lines[i], SameChar(c))
    {
      if i < |rows| {
        JoinKeepsOut(Separator, rows[i], SameChar(c));
      }
    }
    SearchTextIsJoinedLines(rows, c);
    SplitJoin(c, lines, SameChar(c));
    var decoded := DecodeSearchText(SearchText(rows, [c]), c);
    forall i | 0 <= i < |rows|
      ensures decoded[i] == rows[i]
    {
      assert forall j :: 0 <= j < |rows[i]| ==> NoSeparator(rows[i][j], SameChar('\t'));
      SplitJoin('\t', rows[i], SameChar('\t'));
    }
  }
}
