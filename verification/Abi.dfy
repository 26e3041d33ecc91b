/**
 combineAbis: the textual merge of JSON arrays. An array's elements are found the way RFC 8259 nests values:
 brackets and braces must match, commas count at the top level only, and nothing counts inside a string.
 */
module Abi {
  import opened Types
  import opened Chunks

  // ---------------------------------------------------------------- scanning JSON text

  /** The closers still expected, whether the scan is in a string and just after a backslash, and whether it failed. */
  datatype Scan = Scan(closers: seq<char>, inString: bool, escaped: bool, broken: bool)

  const START: Scan := Scan([], false, false, false)

  function Step(st: Scan, c: char): Scan {
    if st.inString then
      if st.escaped then st.(escaped := false)
      else if c == '\\' then st.(escaped := true)
      else if c == '"' then st.(inString := false)
      else st
    else if c == '"' then st.(inString := true)
    else if c == '[' then st.(closers := [']'] + st.closers)
    else if c == '{' then st.(closers := ['}'] + st.closers)
    else if c == ']' || c == '}' then
      if st.closers != [] && st.closers[0] == c then st.(closers := st.closers[1..]) else st.(broken := true)
    else st
  }

  function ScanAll(st: Scan, s: string): Scan
    decreases |s|
  {
    if s == "" then st else ScanAll(Step(st, s[0]), s[1..])
  }

  /** A comma here separates elements. */
  predicate Separates(st: Scan, c: char) {
    c == ',' && st.closers == [] && !st.inString
  }

  /** The pieces of s between separating commas; `piece` is the one being read. */
  function Pieces(st: Scan, piece: string, s: string): seq<string>
    decreases |s|
  {
    if s == "" then [piece]
    else if Separates(st, s[0]) then [piece] + Pieces(st, "", s[1..])
    else Pieces(Step(st, s[0]), piece + [s[0]], s[1..])
  }

  function Inner(text: string): string
    requires |text| >= 2
  {
    text[1..|text| - 1]
  }

  predicate Blank(s: string) {
    forall i :: 0 <= i < |s| ==> s[i] in " \t\r\n"
  }

  /** The text of a JSON array without outer whitespace, as far as nesting and strings go. */
  predicate IsArray(text: string) {
    |text| >= 2 && text[0] == '[' && text[|text| - 1] == ']' && ScanAll(START, Inner(text)) == START
  }

  /** The texts of the array's elements. */
  function Elements(text: string): seq<string>
    requires IsArray(text)
  {
    if Blank(Inner(text)) then [] else Pieces(START, "", Inner(text))
  }

  // ---------------------------------------------------------------- the program

  /** strings.Join */
  function Join(parts: seq<string>, sep: string): string {
    if parts == [] then "" else if |parts| == 1 then parts[0] else parts[0] + sep + Join(parts[1..], sep)
  }

  predicate AllLongEnough(abis: seq<string>) {
    forall i :: 0 <= i < |abis| ==> |abis[i]| >= 2
  }

  function Inners(abis: seq<string>): seq<string>
    requires AllLongEnough(abis)
  {
    if abis == [] then [] else [Inner(abis[0])] + Inners(abis[1..])
  }

  function Combine(abis: seq<string>): Reply<string> {
    if AllLongEnough(abis) then Ok("[" + Join(Inners(abis), ",") + "]") else Err(TooShort)
  }

  /** Strip the first and last byte of every text, fail on one that is too short, join and wrap. */
  method CombineAbis(abis: seq<string>) returns (r: Reply<string>)
    ensures r == Combine(abis)
  {
    var abisToCombine: seq<string> := [];
    for i := 0 to |abis|
      invariant AllLongEnough(abis[..i])
      invariant abisToCombine == Inners(abis[..i])
    {
      assert abis[..i + 1] == abis[..i] + [abis[i]];
      if |abis[i]| < 2 {
        return Err(TooShort);
      }
      InnersSnoc(abis[..i], abis[i]);
      abisToCombine := abisToCombine + [abis[i][1..|abis[i]| - 1]];
    }
    assert abis[..|abis|] == abis;
    return Ok("[" + Join(abisToCombine, ",") + "]");
  }

  lemma {:induction false} InnersSnoc(abis: seq<string>, abi: string)
    requires AllLongEnough(abis) && |abi| >= 2
    ensures AllLongEnough(abis + [abi]) && Inners(abis + [abi]) == Inners(abis) + [Inner(abi)]
  {
    if abis == [] {
      assert abis + [abi] == [abi];
    } else {
      assert (abis + [abi])[1..] == abis[1..] + [abi];
      InnersSnoc(abis[1..], abi);
    }
  }

  // ---------------------------------------------------------------- meaning

  lemma {:induction false} ScanConcat(st: Scan, a: string, b: string)
    ensures ScanAll(st, a + b) == ScanAll(ScanAll(st, a), b)
    decreases |a|
  {
    if a == "" {
      assert a + b == b;
    } else {
      assert (a + b)[0] == a[0] && (a + b)[1..] == a[1..] + b;
      ScanConcat(Step(st, a[0]), a[1..], b);
    }
  }

  /** A text that leaves the scan at the top level, followed by a comma, splits there. */
  lemma {:induction false} PiecesConcat(st: Scan, piece: string, a: string, b: string)
    requires ScanAll(st, a) == START
    ensures Pieces(st, piece, a + "," + b) == Pieces(st, piece, a) + Pieces(START, "", b)
    decreases |a|
  {
    var s := a + "," + b;
    if a == "" {
      assert s[0] == ',' && s[1..] == b;
    } else {
      assert s[0] == a[0] && s[1..] == a[1..] + "," + b;
      if Separates(st, a[0]) {
        assert Step(st, a[0]) == st;
        PiecesConcat(st, "", a[1..], b);
      } else {
        PiecesConcat(Step(st, a[0]), piece + [a[0]], a[1..], b);
      }
    }
  }

  function AllPieces(parts: seq<string>): seq<seq<string>> {
    if parts == [] then [] else [Pieces(START, "", parts[0])] + AllPieces(parts[1..])
  }

  ghost predicate AllClosed(parts: seq<string>) {
    forall i :: 0 <= i < |parts| ==> ScanAll(START, parts[i]) == START
  }

  /** The pieces of a joined text are the pieces of its parts, in order; and the joined text is closed again. */
  lemma {:induction false} JoinPieces(parts: seq<string>)
    requires parts != [] && AllClosed(parts)
    ensures Pieces(START, "", Join(parts, ",")) == Flatten(AllPieces(parts))
    ensures ScanAll(START, Join(parts, ",")) == START
    decreases |parts|
  {
    if |parts| == 1 {
      assert parts[1..] == [];
      assert Flatten(AllPieces(parts)) == Pieces(START, "", parts[0]) + Flatten<string>([]);
    } else {
      var a, b := parts[0], Join(parts[1..], ",");
      JoinPieces(parts[1..]);
      PiecesConcat(START, "", a, b);
      ScanConcat(START, a + ",", b);
      ScanConcat(START, a, ",");
      assert ScanAll(START, ",") == START by { assert ","[1..] == ""; }
    }
  }

  ghost predicate AllArrays(abis: seq<string>) {
    forall i :: 0 <= i < |abis| ==> IsArray(abis[i])
  }

  /** The element lists of the inputs, one after the other. */
  ghost function AllElements(abis: seq<string>): seq<string>
    requires AllArrays(abis)
  {
    if abis == [] then [] else Elements(abis[0]) + AllElements(abis[1..])
  }

  ghost predicate NoneEmpty(abis: seq<string>)
    requires AllArrays(abis)
  {
    forall i :: 0 <= i < |abis| ==> !Blank(Inner(abis[i]))
  }

  lemma {:induction false} InnersClosed(abis: seq<string>)
    requires AllArrays(abis)
    ensures AllLongEnough(abis) && |Inners(abis)| == |abis|
    ensures AllClosed(Inners(abis))
  {
    if abis != [] {
      InnersClosed(abis[1..]);
    }
  }

  /** A text without anything but whitespace has no separating comma: it is one piece. */
  lemma {:induction false} BlankIsOnePiece(piece: string, s: string)
    requires Blank(s)
    ensures |Pieces(START, piece, s)| == 1
    decreases |s|
  {
    if s != "" {
      assert s[0] in " \t\r\n";
      BlankIsOnePiece(piece + [s[0]], s[1..]);
    }
  }

  lemma {:induction false} PiecesNotEmpty(st: Scan, piece: string, s: string)
    ensures |Pieces(st, piece, s)| >= 1
    decreases |s|
  {
    if s != "" && !Separates(st, s[0]) {
      PiecesNotEmpty(Step(st, s[0]), piece + [s[0]], s[1..]);
    }
  }

  /** Pieces and elements differ exactly when an input is an empty array, and then there are too many pieces. */
  lemma {:induction false} PiecesAreElements(abis: seq<string>)
    requires AllArrays(abis)
    ensures AllLongEnough(abis)
    ensures NoneEmpty(abis) ==> Flatten(AllPieces(Inners(abis))) == AllElements(abis)
    ensures !NoneEmpty(abis) ==> |Flatten(AllPieces(Inners(abis)))| > |AllElements(abis)|
    ensures |Flatten(AllPieces(Inners(abis)))| >= |AllElements(abis)|
  {
    InnersClosed(abis);
    if abis != [] {
      PiecesAreElements(abis[1..]);
      var inner := Inner(abis[0]);
      PiecesNotEmpty(START, "", inner);
      assert AllPieces(Inners(abis))[0] == Pieces(START, "", inner);
      assert AllPieces(Inners(abis))[1..] == AllPieces(Inners(abis[1..]));
      assert NoneEmpty(abis) <==> !Blank(inner) && NoneEmpty(abis[1..]) by {
        assert abis == [abis[0]] + abis[1..];
      }
    }
  }

  /** A joined text of two or more parts has a comma. */
  lemma JoinHasComma(parts: seq<string>)
    requires |parts| >= 2
    ensures !Blank(Join(parts, ","))
  {
    assert Join(parts, ",")[|parts[0]|] == ',';
  }

  /**
   Combining JSON array texts gives a JSON array text; and its element list is the concatenation of the inputs'
   element lists if and only if there is at most one input or no input is an empty array.
   */
  lemma CombinePreservesMeaning(abis: seq<string>)
    requires AllArrays(abis)
    ensures var r := Combine(abis);
            && r.Ok? && IsArray(r.value)
            && (Elements(r.value) == AllElements(abis) <==> |abis| <= 1 || NoneEmpty(abis))
  {
    InnersClosed(abis);
    var text := Combine(abis).value;
    var joined := Join(Inners(abis), ",");
    assert Inner(text) == joined;
    if abis == [] {
      assert joined == "" && ScanAll(START, "") == START;
    } else {
      JoinPieces(Inners(abis));
      if |abis| == 1 {
        assert abis[1..] == [];
        assert joined == Inner(abis[0]);
      } else {
        JoinHasComma(Inners(abis));
        PiecesAreElements(abis);
      }
    }
  }

  /** The failing case in small: two empty arrays combine to a text with two empty elements. */
  lemma EmptyArraysBreak()
    ensures Combine(["[]", "[]"]) == Ok("[,]")
    ensures IsArray("[]") && Elements("[]") == []
    ensures IsArray("[,]") && |Elements("[,]")| == 2
  {
    hide Pieces, ScanAll, Join, Inners, Elements;
    var abis := ["[]", "[]"];
    InnersTail(abis);
    JoinCons(Inners(abis), ",");
    OneText(abis[1..]);
    assert Inner("[]") == "" && Join(Inners(abis), ",") == ",";
    assert "[" + "," + "]" == "[,]" && Inner("[,]") == ",";
    CommaAlone();
    NothingInside();
  }

  lemma NothingInside()
    ensures ScanAll(START, "") == START && IsArray("[]") && Elements("[]") == []
  {
    assert Inner("[]") == "";
  }

  lemma CommaAlone()
    ensures IsArray("[,]") && |Elements("[,]")| == 2
  {
    assert Inner("[,]") == "," && ","[1..] == "";
    assert ScanAll(START, ",") == START;
    assert Pieces(START, "", ",") == [""] + Pieces(START, "", "");
  }

  // ---------------------------------------------------------------- texts that need not be arrays

  /** Where the inner part of text i begins in the combination. */
  function Offset(abis: seq<string>, i: nat): int
    requires i <= |abis|
  {
    if i == 0 then 1 else Offset(abis, i - 1) + |abis[i - 1]| - 1
  }

  lemma {:induction false} OffsetTail(abis: seq<string>, i: nat)
    requires 1 <= i <= |abis|
    ensures Offset(abis, i) == Offset(abis[1..], i - 1) + |abis[0]| - 1
  {
    if i > 1 {
      OffsetTail(abis, i - 1);
    }
  }

  lemma OffsetStart(abis: seq<string>)
    requires |abis| >= 1
    ensures Offset(abis, 0) == 1 && Offset(abis[1..], 0) == 1 && Offset(abis, 1) == |abis[0]|
  {
  }

  /** `piece` stands in the text at `at`, right after the character `before`. */
  predicate StandsAt(text: string, at: int, piece: string, before: char) {
    1 <= at <= at + |piece| <= |text| && text[at - 1] == before && text[at..at + |piece|] == piece
  }

  lemma StandsFirst(inner: string, rest: string)
    ensures StandsAt("[" + (inner + rest), 1, inner, '[')
  {
    assert ("[" + (inner + rest))[1..1 + |inner|] == inner;
  }

  lemma StandsFurtherOn(inner: string, joined: string, at: int, piece: string, before: char)
    requires StandsAt("[" + joined, at, piece, before) && (at == 1 || before == ',')
    ensures StandsAt("[" + (inner + ("," + joined)), at + |inner| + 1, piece, ',')
  {
    var text, tail, shift := "[" + (inner + ("," + joined)), "[" + joined, |inner| + 1;
    assert text[shift] == ',';
    assert text[shift + 1..] == joined && tail[1..] == joined;
    assert text[shift + at..] == tail[at..];
    assert at > 1 ==> text[shift + at - 1] == tail[at - 1];
    assert text[shift + at..shift + at + |piece|] == text[shift + at..][..|piece|];
    assert tail[at..at + |piece|] == tail[at..][..|piece|];
  }

  lemma JoinCons(parts: seq<string>, sep: string)
    requires |parts| >= 2
    ensures Join(parts, sep) == parts[0] + (sep + Join(parts[1..], sep))
  {
  }

  lemma InnersTail(abis: seq<string>)
    requires AllLongEnough(abis) && |abis| >= 2
    ensures |Inners(abis)| >= 2 && Inners(abis)[0] == Inner(abis[0]) && Inners(abis)[1..] == Inners(abis[1..])
  {
  }

  lemma JoinUnfolds(abis: seq<string>)
    requires AllLongEnough(abis) && |abis| >= 2
    ensures Join(Inners(abis), ",") == Inner(abis[0]) + ("," + Join(Inners(abis[1..]), ","))
  {
    hide Join, Inners, Inner;
    InnersTail(abis);
    JoinCons(Inners(abis), ",");
  }

  lemma OneText(abis: seq<string>)
    requires AllLongEnough(abis) && |abis| == 1
    ensures Join(Inners(abis), ",") == Inner(abis[0]) + ""
  {
    assert Inners(abis)[1..] == [];
  }

  lemma {:induction false} JoinedLength(abis: seq<string>)
    requires AllLongEnough(abis) && |abis| >= 1
    ensures |Join(Inners(abis), ",")| == Offset(abis, |abis|) - 2
    decreases |abis|
  {
    hide Join, Inners, Offset;
    OffsetStart(abis);
    if |abis| == 1 {
      OneText(abis);
    } else {
      JoinUnfolds(abis);
      OffsetTail(abis, |abis|);
      JoinedLength(abis[1..]);
    }
  }

  /** The joined text, with the opening bracket in front, by position. */
  lemma {:induction false} JoinedAt(abis: seq<string>, i: nat)
    requires AllLongEnough(abis) && i < |abis|
    ensures StandsAt("[" + Join(Inners(abis), ","), Offset(abis, i), Inner(abis[i]), if i == 0 then '[' else ',')
    decreases |abis|
  {
    hide StandsAt, Join, Inners, Offset;
    OffsetStart(abis);
    var inner, rest := Inner(abis[0]), abis[1..];
    if |abis| == 1 {
      OneText(abis);
      StandsFirst(inner, "");
    } else {
      JoinUnfolds(abis);
      var joined := Join(Inners(rest), ",");
      if i == 0 {
        StandsFirst(inner, "," + joined);
      } else {
        JoinedAt(rest, i - 1);
        OffsetTail(abis, i);
        StandsFurtherOn(inner, joined, Offset(rest, i - 1), Inner(abis[i]), if i == 1 then '[' else ',');
      }
    }
  }

  lemma StandsStill(text: string, at: int, piece: string, before: char)
    requires StandsAt(text, at, piece, before)
    ensures StandsAt(text + "]", at, piece, before)
  {
    assert (text + "]")[at..at + |piece|] == text[at..at + |piece|];
  }

  /** Combining fails if and only if some text is shorter than two bytes. */
  lemma CombineFailsIff(abis: seq<string>)
    ensures Combine(abis) == Err(TooShort) <==> exists i :: 0 <= i < |abis| && |abis[i]| < 2
    ensures Combine(abis).Err? <==> Combine(abis) == Err(TooShort)
    ensures abis == [] ==> Combine(abis) == Ok("[]")
  {
    assert "[" + "" + "]" == "[]";
    if !AllLongEnough(abis) {
      var i :| 0 <= i < |abis| && |abis[i]| < 2;
    }
  }

  /**
   Combining any texts, arrays or not. The inner parts of the texts stand in the result one after the other, unchanged,
   with a bracket in front of the first, a comma in front of the others, a bracket at the end, and nothing else.
   */
  lemma CombinedText(abis: seq<string>, i: nat)
    requires AllLongEnough(abis) && i < |abis|
    ensures var r := Combine(abis);
            && r.Ok? && |r.value| == Offset(abis, |abis|) && r.value[|r.value| - 1] == ']'
            && StandsAt(r.value, Offset(abis, i), abis[i][1..|abis[i]| - 1], if i == 0 then '[' else ',')
  {
    hide StandsAt, Join, Inners, Offset;
    JoinedAt(abis, i);
    JoinedLength(abis);
    StandsStill("[" + Join(Inners(abis), ","), Offset(abis, i), Inner(abis[i]), if i == 0 then '[' else ',');
    assert Combine(abis).value == "[" + Join(Inners(abis), ",") + "]";
  }
}
