/**
 * The preprocessing of a protein list: every line is trimmed, the lines
 * the UniProt accession pattern accepts become proteoforms in a sorted set,
 * and every other line is reported with an INVALID_ROW warning.
 *
 * The accession pattern and the Proteoform(String) constructor are not part
 * of this model; they are the parameters `isUniProt` and `parse`.
 */
module PreprocessorProteins {
  import opened JavaText
  import opened PapModel

  /** The proteoforms kept from the lines of `input`. */
  function Accepted(input: seq<string>, isUniProt: string -> bool, parse: string -> Proteoform): set<Proteoform>
  {
    if input == [] then {}
    else
      var line := Trim(input[|input| - 1]);
      Accepted(input[..|input| - 1], isUniProt, parse) + (if isUniProt(line) then {parse(line)} else {})
  }

  /** The warnings for the lines of `input`: the k-th line (from 1) reports row k + 1. */
  function Rejected(input: seq<string>, isUniProt: string -> bool): seq<Warning>
  {
    if input == [] then []
    else
      var line := Trim(input[|input| - 1]);
      Rejected(input[..|input| - 1], isUniProt)
        + (if isUniProt(line) then [] else [Warning(InvalidRow, |input| + 1)])
  }

  /** `process(input)`: the proteoform set and the warnings it logs, in order. */
  method Process(input: seq<string>, isUniProt: string -> bool, parse: string -> Proteoform)
    returns (entities: set<Proteoform>, warnings: seq<Warning>)
    ensures entities == Accepted(input, isUniProt, parse)
    ensures warnings == Rejected(input, isUniProt)
  {
    entities := {};
    warnings := [];
    var row := 1;
    for i := 0 to |input|
      invariant row == i + 1
      invariant entities == Accepted(input[..i], isUniProt, parse)
      invariant warnings == Rejected(input[..i], isUniProt)
    {
      var line := Trim(input[i]);
      row := row + 1;
      assert input[..i + 1][..i] == input[..i];
      if isUniProt(line) {
        entities := entities + {parse(line)};
      } else {
        warnings := warnings + [Warning(InvalidRow, row)];
      }
    }
    assert input[..|input|] == input;
  }

  /** A kept proteoform comes from some trimmed line that passes the pattern. */
  lemma {:induction false} AcceptedFromLine(input: seq<string>, isUniProt: string -> bool,
                                             parse: string -> Proteoform, p: Proteoform)
    requires p in Accepted(input, isUniProt, parse)
    ensures exists i :: 0 <= i < |input| && isUniProt(Trim(input[i])) && parse(Trim(input[i])) == p
  {
    var n := |input| - 1;
    var init := input[..n];
    if p in Accepted(init, isUniProt, parse) {
      AcceptedFromLine(init, isUniProt, parse, p);
      var i :| 0 <= i < |init| && isUniProt(Trim(init[i])) && parse(Trim(init[i])) == p;
      assert init[i] == input[i];
    } else {
      assert isUniProt(Trim(input[n])) && parse(Trim(input[n])) == p;
    }
  }

  /** The proteoform of every trimmed line that passes the pattern is kept. */
  lemma {:induction false} LineIsAccepted(input: seq<string>, isUniProt: string -> bool,
                                           parse: string -> Proteoform, i: nat)
    requires i < |input| && isUniProt(Trim(input[i]))
    ensures parse(Trim(input[i])) in Accepted(input, isUniProt, parse)
  {
    var n := |input| - 1;
    if i < n {
      var init := input[..n];
      assert init[i] == input[i];
      LineIsAccepted(init, isUniProt, parse, i);
    }
  }

  /** A proteoform is kept iff some trimmed line passes the pattern and builds it. */
  lemma AcceptedMembership(input: seq<string>, isUniProt: string -> bool, parse: string -> Proteoform, p: Proteoform)
    ensures p in Accepted(input, isUniProt, parse) <==>
              exists i :: 0 <= i < |input| && isUniProt(Trim(input[i])) && parse(Trim(input[i])) == p
  {
    if p in Accepted(input, isUniProt, parse) {
      AcceptedFromLine(input, isUniProt, parse, p);
    }
    if exists i :: 0 <= i < |input| && isUniProt(Trim(input[i])) && parse(Trim(input[i])) == p {
      var i :| 0 <= i < |input| && isUniProt(Trim(input[i])) && parse(Trim(input[i])) == p;
      LineIsAccepted(input, isUniProt, parse, i);
    }
  }

  /**
   * When distinct lines build distinct proteoforms, the proteoform of a
   * trimmed line is kept iff that trimmed line passes the pattern.
   */
  lemma KeptIffValid(input: seq<string>, isUniProt: string -> bool, parse: string -> Proteoform, k: nat)
    requires k < |input|
    requires forall a, b :: parse(a) == parse(b) ==> a == b
    ensures parse(Trim(input[k])) in Accepted(input, isUniProt, parse) <==> isUniProt(Trim(input[k]))
  {
    AcceptedMembership(input, isUniProt, parse, parse(Trim(input[k])));
  }

  /** Duplicates collapse: there are never more proteoforms than lines; none for no lines. */
  lemma {:induction false} AcceptedSize(input: seq<string>, isUniProt: string -> bool, parse: string -> Proteoform)
    ensures |Accepted(input, isUniProt, parse)| <= |input|
  {
    if input != [] {
      AcceptedSize(input[..|input| - 1], isUniProt, parse);
    }
  }

  /** Every warning is an INVALID_ROW one reporting a row between 2 and the line count plus 1. */
  lemma {:induction false} RejectedRowRange(input: seq<string>, isUniProt: string -> bool)
    ensures forall w :: w in Rejected(input, isUniProt) ==> w.kind == InvalidRow && 2 <= w.row <= |input| + 1
  {
    if input != [] {
      RejectedRowRange(input[..|input| - 1], isUniProt);
    }
  }

  /**
   * The line at index k (the (k + 1)-th line) draws a warning reporting
   * row k + 2 iff that trimmed line fails the pattern.
   */
  lemma {:induction false} RejectedIffInvalid(input: seq<string>, isUniProt: string -> bool)
    ensures forall k :: 0 <= k < |input| ==>
              (Warning(InvalidRow, k + 2) in Rejected(input, isUniProt) <==> !isUniProt(Trim(input[k])))
  {
    if input != [] {
      var n := |input| - 1;
      var init := input[..n];
      RejectedIffInvalid(init, isUniProt);
      RejectedRowRange(init, isUniProt);
      forall k | 0 <= k < |input|
        ensures Warning(InvalidRow, k + 2) in Rejected(input, isUniProt) <==> !isUniProt(Trim(input[k]))
      {
        if k < n {
          assert init[k] == input[k];
        }
      }
    }
  }

  /** Warnings are sent in line order: their row numbers strictly increase. */
  lemma {:induction false} RejectedInOrder(input: seq<string>, isUniProt: string -> bool)
    ensures RowsIncrease(Rejected(input, isUniProt))
  {
    if input != [] {
      var n := |input| - 1;
      var init := input[..n];
      RejectedInOrder(init, isUniProt);
      RejectedRowRange(init, isUniProt);
      var before := Rejected(init, isUniProt);
      var ws := Rejected(input, isUniProt);
      if !isUniProt(Trim(input[n])) {
        assert ws == before + [Warning(InvalidRow, n + 2)];
        forall a, b | 0 <= a < b < |ws|
          ensures ws[a].row < ws[b].row
        {
          assert ws[a] == before[a] && before[a] in before;
          if b < |before| {
            assert ws[b] == before[b];
            assert before[a].row < before[b].row;
          } else {
            assert ws[b] == Warning(InvalidRow, n + 2);
          }
        }
      } else {
        assert ws == before;
      }
    }
  }

  /** Only the trimmed form of a line matters: padding lines with blanks changes nothing. */
  lemma {:induction false} PaddingIsIgnored(input: seq<string>, padded: seq<string>,
                                             isUniProt: string -> bool, parse: string -> Proteoform)
    requires |padded| == |input|
    requires forall i :: 0 <= i < |input| ==> Trim(padded[i]) == Trim(input[i])
    ensures Accepted(padded, isUniProt, parse) == Accepted(input, isUniProt, parse)
    ensures Rejected(padded, isUniProt) == Rejected(input, isUniProt)
  {
    if input != [] {
      PaddingIsIgnored(input[..|input| - 1], padded[..|padded| - 1], isUniProt, parse);
    }
  }
}
