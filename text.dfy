/**
 * The string operations the source takes from JavaScript: `toLowerCase`,
 * `trim`, `split`, `includes`, `indexOf` and joining with a separator.
 */
module Text {
  import opened Wrappers

  /** Lower-cases the ASCII letters A-Z; every other character is kept. */
  function LowerChar(c: char): (r: char)
    ensures 'A' <= c <= 'Z' ==> r as int == c as int + 32
    ensures !('A' <= c <= 'Z') ==> r == c
  {
    if 'A' <= c <= 'Z' then (c as int + 32) as char else c
  }

  /** `s.toLowerCase()`, on ASCII letters. */
  function Lower(s: string): (r: string)
    ensures |r| == |s|
    ensures forall i :: 0 <= i < |s| ==> r[i] == LowerChar(s[i])
  {
    if s == [] then [] else [LowerChar(s[0])] + Lower(s[1..])
  }

  predicate IsLower(s: string) {
    forall i :: 0 <= i < |s| ==> !('A' <= s[i] <= 'Z')
  }

  /** Lower-casing twice is lower-casing once. */
  lemma LowerIdempotent(s: string)
    ensures Lower(Lower(s)) == Lower(s)
    ensures IsLower(Lower(s))
  {
  }

  /** A string is unchanged by lower-casing exactly when it has no upper-case letter. */
  lemma LowerFixpoint(s: string)
    ensures Lower(s) == s <==> IsLower(s)
  {
    if IsLower(s) {
      assert forall i :: 0 <= i < |s| ==> Lower(s)[i] == s[i];
    } else {
      var i :| 0 <= i < |s| && 'A' <= s[i] <= 'Z';
      assert Lower(s)[i] != s[i];
    }
  }

  /** `null + ""` in JavaScript: a missing string prints as "null". */
  function Str(s: Option<string>): string {
    match s
    case Some(v) => v
    case None => "null"
  }

  /** The white space that JavaScript's `trim` removes (Latin-1 and the common separators). */
  predicate IsSpace(c: char) {
    c == ' ' || c == '\t' || c == '\n' || c == '\r' || c == '\U{000B}' || c == '\U{000C}'
    || c == '\U{00A0}' || c == '\U{2028}' || c == '\U{2029}' || c == '\U{FEFF}'
  }

  function TrimStart(s: string): (r: string)
    ensures |r| <= |s| && r == s[|s| - |r|..]
    ensures r == [] || !IsSpace(r[0])
    ensures forall i :: 0 <= i < |s| - |r| ==> IsSpace(s[i])
  {
    if s != [] && IsSpace(s[0]) then TrimStart(s[1..]) else s
  }

  function TrimEnd(s: string): (r: string)
    ensures |r| <= |s| && r == s[..|r|]
    ensures r == [] || !IsSpace(r[|r| - 1])
    ensures forall i :: |r| <= i < |s| ==> IsSpace(s[i])
  {
    if s != [] && IsSpace(s[|s| - 1]) then TrimEnd(s[..|s| - 1]) else s
  }

  /** `s.trim()`: drops white space at both ends. */
  function Trim(s: string): (r: string)
    ensures r == [] || (!IsSpace(r[0]) && !IsSpace(r[|r| - 1]))
    ensures |r| <= |s|
  {
    TrimEnd(TrimStart(s))
  }

  /** A string without white space at its ends is its own trim. */
  lemma TrimmedFixpoint(s: string)
    requires s == [] || (!IsSpace(s[0]) && !IsSpace(s[|s| - 1]))
    ensures Trim(s) == s
  {
    assert TrimStart(s) == s;
  }

  /** Trimming twice trims no further. */
  lemma TrimIdempotent(s: string)
    ensures Trim(Trim(s)) == Trim(s)
  {
    TrimmedFixpoint(Trim(s));
  }

  /** Trimming adds no character. */
  lemma TrimKeepsOnly(s: string, c: char)
    requires c !in s
    ensures c !in Trim(s)
  {
    var t := TrimStart(s);
    assert t == s[|s| - |t|..];
    assert TrimEnd(t) == t[..|TrimEnd(t)|];
  }

  /** `s.includes(c)` for a one-character needle. */
  predicate Contains(s: string, c: char) {
    c in s
  }

  /** `s.split(c)` for a one-character separator: always at least one piece. */
  function Split(s: string, c: char): (r: seq<string>)
    ensures |r| >= 1
    ensures forall k :: 0 <= k < |r| ==> c !in r[k]
  {
    if s == [] then [""]
    else if s[0] == c then [""] + Split(s[1..], c)
    else
      var rest := Split(s[1..], c);
      [[s[0]] + rest[0]] + rest[1..]
  }

  /** Joining with a separator and splitting on it again gives the pieces back. */
  lemma {:induction false} SplitJoin(xs: seq<string>, c: char)
    requires |xs| >= 1
    requires forall k :: 0 <= k < |xs| ==> c !in xs[k]
    ensures Split(Join(xs, [c]), c) == xs
  {
    if |xs| == 1 {
      SplitNoSep(xs[0], c);
    } else {
      SplitJoin(xs[1..], c);
      JoinCons(xs, [c]);
      SplitAppend(xs[0], Join(xs[1..], [c]), c);
    }
  }

  lemma {:induction false} SplitNoSep(s: string, c: char)
    requires c !in s
    ensures Split(s, c) == [s]
  {
    if s != [] {
      SplitNoSep(s[1..], c);
      assert s[0] != c;
      assert [s[0]] + s[1..] == s;
    }
  }

  /** Splitting `a + [c] + b` where `a` has no separator. */
  lemma {:induction false} SplitAppend(a: string, b: string, c: char)
    requires c !in a
    ensures Split(a + [c] + b, c) == [a] + Split(b, c)
  {
    if a == [] {
      assert a + [c] + b == [c] + b;
      assert ([c] + b)[1..] == b;
    } else {
      var t := a + [c] + b;
      assert t[0] == a[0] && t[0] != c;
      assert t[1..] == a[1..] + [c] + b;
      SplitAppend(a[1..], b, c);
      assert [a[0]] + a[1..] == a;
    }
  }

  /** `xs.join(sep)`: the pieces with `sep` between neighbours. */
  function Join(xs: seq<string>, sep: string): (r: string)
    ensures xs == [] ==> r == []
    ensures |xs| == 1 ==> r == xs[0]
  {
    if xs == [] then []
    else if |xs| == 1 then xs[0]
    else xs[0] + sep + Join(xs[1..], sep)
  }

  lemma JoinCons(xs: seq<string>, sep: string)
    requires |xs| >= 2
    ensures Join(xs, sep) == xs[0] + sep + Join(xs[1..], sep)
  {
  }

  /** Appending one piece: what a loop that adds `sep` before every piece but the first builds. */
  lemma {:induction false} JoinSnoc(xs: seq<string>, x: string, sep: string)
    requires xs != []
    ensures Join(xs + [x], sep) == Join(xs, sep) + sep + x
  {
    if |xs| == 1 {
      assert xs + [x] == [xs[0], x];
    } else {
      assert (xs + [x])[1..] == xs[1..] + [x];
      JoinSnoc(xs[1..], x, sep);
    }
  }

  /** The pieces of `s` split on `c`, trimmed, with the empty ones dropped, in order. */
  function CleanPieces(pieces: seq<string>): (r: seq<string>)
    ensures |r| <= |pieces|
    ensures forall k :: 0 <= k < |r| ==> r[k] != []
  {
    if pieces == [] then []
    else
      var n := |pieces| - 1;
      var t := Trim(pieces[n]);
      CleanPieces(pieces[..n]) + (if t == [] then [] else [t])
  }

  /** Every kept piece is its own trim. */
  lemma {:induction false} CleanPiecesTrimmed(pieces: seq<string>)
    ensures forall k :: 0 <= k < |CleanPieces(pieces)| ==> Trim(CleanPieces(pieces)[k]) == CleanPieces(pieces)[k]
  {
    if pieces != [] {
      var n := |pieces| - 1;
      TrimIdempotent(pieces[n]);
      CleanPiecesTrimmed(pieces[..n]);
    }
  }

  /** Cleaning pieces that lack a character gives pieces that lack it. */
  lemma {:induction false} CleanPiecesLack(pieces: seq<string>, c: char)
    requires forall k :: 0 <= k < |pieces| ==> c !in pieces[k]
    ensures forall k :: 0 <= k < |CleanPieces(pieces)| ==> c !in CleanPieces(pieces)[k]
  {
    if pieces != [] {
      var n := |pieces| - 1;
      TrimKeepsOnly(pieces[n], c);
      CleanPiecesLack(pieces[..n], c);
    }
  }

  /**
   * The loop that splits `s` on `c`, trims every piece and keeps the
   * non-empty ones in order.
   */
  method SplitTrimmed(s: string, c: char) returns (list: seq<string>)
    ensures list == CleanPieces(Split(s, c))
  {
    var pieces := Split(s, c);
    list := [];
    for i := 0 to |pieces|
      invariant list == CleanPieces(pieces[..i])
    {
      assert pieces[..i + 1][..i] == pieces[..i];
      var piece := Trim(pieces[i]);
      if |piece| > 0 {
        list := list + [piece];
      }
    }
    assert pieces[..|pieces|] == pieces;
  }

  /** Pieces that are already trimmed and non-empty are kept as they are. */
  lemma {:induction false} CleanPiecesFixpoint(pieces: seq<string>)
    requires forall k :: 0 <= k < |pieces| ==> pieces[k] != [] && Trim(pieces[k]) == pieces[k]
    ensures CleanPieces(pieces) == pieces
  {
    if pieces != [] {
      var n := |pieces| - 1;
      CleanPiecesFixpoint(pieces[..n]);
      assert pieces == pieces[..n] + [pieces[n]];
    }
  }

  /** `indexOf`: the first position of `x` in `xs`, or -1. */
  function IndexOf<T(==)>(xs: seq<T>, x: T): (r: int)
    ensures -1 <= r < |xs|
    ensures r >= 0 ==> xs[r] == x && forall j :: 0 <= j < r ==> xs[j] != x
    ensures r == -1 <==> x !in xs
  {
    if xs == [] then -1
    else if xs[0] == x then 0
    else
      var k := IndexOf(xs[1..], x);
      if k == -1 then -1 else k + 1
  }
}
