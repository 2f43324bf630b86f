/** Octet strings and the few searches and cuts that the wire code is made of. */
module Octets {

  /** One octet. Writing it as a character below 256 keeps wire literals readable. */
  type Byte = c: char | c as int < 256

  type Bytes = seq<Byte>

  datatype Option<+T> = None | Some(value: T)

  datatype Result<+T, +E> = Ok(value: T) | Err(error: E)

  const CRLF: Bytes := "\r\n"
  const CRLF_CRLF: Bytes := "\r\n\r\n"

  /** `needle` occurs in `s` at position `k`. */
  predicate At(needle: string, s: string, k: nat) {
    k + |needle| <= |s| && s[k..k + |needle|] == needle
  }

  /** The position of the first window of `s` equal to `needle`. */
  function Find(needle: string, s: string): (r: Option<nat>)
    ensures r.Some? ==> At(needle, s, r.value) && forall j: nat :: j < r.value ==> !At(needle, s, j)
    ensures r.None? ==> forall j: nat :: !At(needle, s, j)
  {
    FindFrom(needle, s, 0)
  }

  function FindFrom(needle: string, s: string, i: nat): (r: Option<nat>)
    ensures r.Some? ==> i <= r.value && At(needle, s, r.value)
    ensures r.Some? ==> forall j: nat :: i <= j < r.value ==> !At(needle, s, j)
    ensures r.None? ==> forall j: nat :: i <= j ==> !At(needle, s, j)
    decreases |s| - i
  {
    if i + |needle| > |s| then None
    else if At(needle, s, i) then Some(i)
    else if i == |s| then None
    else FindFrom(needle, s, i + 1)
  }

  /** A first occurrence is pinned down by what it is. */
  lemma {:induction false} FirstIs(needle: string, s: string, k: nat)
    requires At(needle, s, k)
    requires forall j: nat :: j < k ==> !At(needle, s, j)
    ensures Find(needle, s) == Some(k)
  {
  }

  /** Octets that arrive later never move a match already found, and when there was no match
      the first one must reach into them. */
  lemma {:induction false} FindInPrefix(needle: string, s: string, t: string)
    ensures Find(needle, s).Some? ==> Find(needle, s + t) == Find(needle, s)
    ensures Find(needle, s).None? && Find(needle, s + t).Some? ==>
              Find(needle, s + t).value + |needle| > |s|
  {
    forall j: nat | j + |needle| <= |s| ensures At(needle, s, j) == At(needle, s + t, j) {
      assert (s + t)[j..j + |needle|] == s[j..j + |needle|];
    }
    if Find(needle, s).Some? {
      FirstIs(needle, s + t, Find(needle, s).value);
    }
  }

  /** Dropping what precedes shifts every occurrence by the same amount. */
  lemma {:induction false} AtShift(needle: string, s: string, t: string, k: nat)
    ensures At(needle, s + t, |s| + k) == At(needle, t, k)
  {
    if k + |needle| <= |t| {
      assert (s + t)[|s| + k..|s| + k + |needle|] == t[k..k + |needle|];
    }
  }

  /** The pieces of `s` between occurrences of `sep`; there is always at least one. */
  function Split<T(==)>(sep: T, s: seq<T>): (r: seq<seq<T>>)
    ensures |r| >= 1
    ensures forall i :: 0 <= i < |r| ==> sep !in r[i]
  {
    if s == [] then [[]]
    else
      var rest := Split(sep, s[1..]);
      if s[0] == sep then [[]] + rest else [[s[0]] + rest[0]] + rest[1..]
  }

  /** A piece without the separator is split off whole. */
  lemma {:induction false} SplitPiece<T>(sep: T, piece: seq<T>, rest: seq<T>)
    requires sep !in piece
    ensures Split(sep, piece) == [piece]
    ensures Split(sep, piece + [sep] + rest) == [piece] + Split(sep, rest)
  {
    var s := piece + [sep] + rest;
    if piece == [] {
      assert s[1..] == rest;
    } else {
      SplitPiece(sep, piece[1..], rest);
      assert s[1..] == piece[1..] + [sep] + rest;
      assert [piece[0]] + piece[1..] == piece;
    }
  }

  lemma {:induction false} Regroup<T>(a: seq<T>, b: seq<T>, c: seq<T>)
    ensures a + (b + c) == (a + b) + c
  {
  }

  /** One more element in front of what is already split. */
  function Consed<T(==)>(sep: T, c: T, rest: seq<seq<T>>): seq<seq<T>>
    requires rest != []
  {
    if c == sep then [[]] + rest else [[c] + rest[0]] + rest[1..]
  }

  lemma {:induction false} ConsedAppend<T>(sep: T, c: T, rest: seq<seq<T>>, more: seq<seq<T>>)
    requires rest != []
    ensures Consed(sep, c, rest + more) == Consed(sep, c, rest) + more
  {
    assert (rest + more)[1..] == rest[1..] + more;
    Regroup([[]], rest, more);
    Regroup([[c] + rest[0]], rest[1..], more);
  }

  /** Joining with the separator joins the pieces. */
  lemma {:induction false} SplitJoin<T>(sep: T, x: seq<T>, y: seq<T>)
    ensures Split(sep, x + ([sep] + y)) == Split(sep, x) + Split(sep, y)
  {
    var s := x + ([sep] + y);
    if x == [] {
      assert s[1..] == y;
    } else {
      SplitJoin(sep, x[1..], y);
      assert s[0] == x[0] && s[1..] == x[1..] + ([sep] + y);
      assert Split(sep, s) == Consed(sep, x[0], Split(sep, s[1..]));
      assert Split(sep, x) == Consed(sep, x[0], Split(sep, x[1..]));
      hide Split, Consed;
      ConsedAppend(sep, x[0], Split(sep, x[1..]), Split(sep, y));
    }
  }

  predicate IsOws(b: Byte) {
    b == ' ' || b == '\t'
  }

  /** `s` from its first octet that is not a blank. */
  function TrimFront(s: Bytes): (r: Bytes)
    ensures |r| <= |s| && (r != [] ==> !IsOws(r[0]))
  {
    if s != [] && IsOws(s[0]) then TrimFront(s[1..]) else s
  }

  /** `s` up to its last octet that is not a blank. */
  function TrimBack(s: Bytes): (r: Bytes)
    ensures |r| <= |s| && (r != [] ==> !IsOws(r[|r| - 1]))
  {
    if s != [] && IsOws(s[|s| - 1]) then TrimBack(s[..|s| - 1]) else s
  }

  function Trim(s: Bytes): Bytes {
    TrimBack(TrimFront(s))
  }

  method TrimOws(input: Bytes) returns (bytes: Bytes)
    ensures bytes == Trim(input)
  {
    bytes := input;
    while bytes != [] && IsOws(bytes[0])
      invariant TrimFront(bytes) == TrimFront(input)
      decreases |bytes|
    {
      bytes := bytes[1..];
    }
    while bytes != [] && IsOws(bytes[|bytes| - 1])
      invariant TrimBack(bytes) == TrimBack(TrimFront(input))
      decreases |bytes|
    {
      bytes := bytes[..|bytes| - 1];
    }
  }

  /** Text that neither starts nor ends with a blank is its own trimming, and so is what
      stands behind one blank. */
  lemma {:induction false} TrimNothing(s: Bytes)
    requires s == [] || (!IsOws(s[0]) && !IsOws(s[|s| - 1]))
    ensures Trim(s) == s
    ensures Trim([' '] + s) == s
  {
    var t: Bytes := [' '] + s;
    assert t[1..] == s;
  }

  predicate AreBlank(s: Bytes) {
    forall i :: 0 <= i < |s| ==> IsOws(s[i])
  }

  /** Trimming cuts blanks at the ends, all of them, and nothing else. */
  lemma {:induction false} TrimmedEnds(s: Bytes) returns (front: Bytes, back: Bytes)
    ensures s == front + Trim(s) + back && AreBlank(front) && AreBlank(back)
    ensures Trim(s) != [] ==> !IsOws(Trim(s)[0]) && !IsOws(Trim(s)[|Trim(s)| - 1])
  {
    front := CutFront(s);
    back := CutBack(TrimFront(s));
  }

  lemma {:induction false} CutFront(s: Bytes) returns (front: Bytes)
    ensures s == front + TrimFront(s) && AreBlank(front)
  {
    if s != [] && IsOws(s[0]) {
      front := CutFront(s[1..]);
      front := [s[0]] + front;
    } else {
      front := [];
    }
  }

  lemma {:induction false} CutBack(s: Bytes) returns (back: Bytes)
    ensures s == TrimBack(s) + back && AreBlank(back)
  {
    if s != [] && IsOws(s[|s| - 1]) {
      back := CutBack(s[..|s| - 1]);
      back := back + [s[|s| - 1]];
    } else {
      back := [];
    }
  }

  /** Blanks around a text without outer blanks are what trimming takes away. */
  lemma {:induction false} TrimBetween(a: Bytes, core: Bytes, b: Bytes)
    requires AreBlank(a) && AreBlank(b) && (core == [] || (!IsOws(core[0]) && !IsOws(core[|core| - 1])))
    ensures Trim(a + core + b) == core
  {
    hide TrimFront, TrimBack;
    Regroup(a, core, b);
    SkipFront(a, core + b);
    if core == [] {
      assert core + b == b + [];
      SkipFront(b, []);
      NothingToTrim([]);
    } else {
      NothingToTrim(core + b);
      SkipBack(core, b);
      NothingToTrim(core);
    }
  }

  lemma {:induction false} NothingToTrim(s: Bytes)
    ensures s == [] || !IsOws(s[0]) ==> TrimFront(s) == s
    ensures s == [] || !IsOws(s[|s| - 1]) ==> TrimBack(s) == s
  {
  }

  lemma {:induction false} SkipFront(a: Bytes, s: Bytes)
    requires AreBlank(a)
    ensures TrimFront(a + s) == TrimFront(s)
  {
    if a == [] {
      assert a + s == s;
    } else {
      SkipFront(a[1..], s);
      assert (a + s)[1..] == a[1..] + s;
    }
  }

  lemma {:induction false} SkipBack(s: Bytes, b: Bytes)
    requires AreBlank(b)
    ensures TrimBack(s + b) == TrimBack(s)
  {
    if b == [] {
      assert s + b == s;
    } else {
      var k := |b| - 1;
      SkipBack(s, b[..k]);
      assert (s + b)[..|s| + k] == s + b[..k];
    }
  }

  /** The first piece ends where the first separator stands, or with the text. */
  lemma {:induction false} FirstPiece<T>(sep: T, s: seq<T>)
    ensures var first := Split(sep, s)[0];
            |first| <= |s| && s[..|first|] == first && sep !in first && (|first| < |s| ==> s[|first|] == sep)
  {
    if s != [] && s[0] != sep {
      FirstPiece(sep, s[1..]);
    }
  }
}
