/** How a response body is delimited, rule by rule as in section 6.3 of RFC 9112, on the texts of the header
    fields and without the functions that the choice is made with. */
module FramingRules {
  import opened Octets
  import opened Numbers
  import opened Numerals
  import opened BodyFraming
  import opened ResponseHeads

  const TRANSFER_ENCODING: Bytes := "transfer-encoding"
  const CONTENT_LENGTH: Bytes := "content-length"

  predicate HasField(headers: seq<Header>, name: Bytes) {
    exists i :: 0 <= i < |headers| && headers[i].name == name
  }

  /** The request was not HEAD and the status allows a body. */
  predicate MayHaveBody(status: nat, headRequest: bool) {
    !headRequest && !(100 <= status <= 199) && status != 204 && status != 304
  }

  /** Nothing but commas and blanks: a list without elements. */
  predicate IsVoid(value: Bytes) {
    forall i :: 0 <= i < |value| ==> value[i] == ',' || value[i] == ' ' || value[i] == '\t'
  }

  /** The list has just one element, which is `word`. */
  ghost predicate IsOnly(value: Bytes, word: Bytes) {
    exists p: Bytes, q: Bytes :: value == p + word + q && IsVoid(p) && IsVoid(q)
  }

  predicate IsWord(word: Bytes) {
    word != [] && ',' !in word && !IsOws(word[0]) && !IsOws(word[|word| - 1])
  }

  /** No Transfer-Encoding field names a coding. */
  predicate NoCoding(headers: seq<Header>) {
    forall i :: 0 <= i < |headers| && headers[i].name == TRANSFER_ENCODING ==> IsVoid(headers[i].value)
  }

  /** Field `k` names the coding `word`, and no field names another. */
  ghost predicate OneCoding(headers: seq<Header>, k: nat, word: Bytes) {
    && k < |headers| && headers[k].name == TRANSFER_ENCODING && IsOnly(headers[k].value, word)
    && forall i :: 0 <= i < |headers| && i != k && headers[i].name == TRANSFER_ENCODING ==> IsVoid(headers[i].value)
  }

  /** The word, in any letter case. */
  predicate IsChunkedWord(word: Bytes) {
    |word| == 7 && forall i :: 0 <= i < 7 ==> word[i] == "chunked"[i] || word[i] == "CHUNKED"[i]
  }

  // ---- Elements of a list ----

  lemma {:induction false} BlankPiece(piece: Bytes)
    requires ',' !in piece
    ensures Trim(piece) == [] <==> IsVoid(piece)
  {
    hide Trim;
    var front, back := TrimmedEnds(piece);
    if IsVoid(piece) {
      assert forall i :: 0 <= i < |piece| ==> piece[i] in piece;
      assert AreBlank(piece) && piece == piece + [] + [];
      TrimBetween(piece, [], []);
    }
    if Trim(piece) == [] {
      assert forall i :: 0 <= i < |piece| ==> piece[i] == if i < |front| then front[i] else back[i - |front|];
    }
  }

  lemma {:induction false} ElementsNone(pieces: seq<Bytes>)
    requires forall i :: 0 <= i < |pieces| ==> ',' !in pieces[i]
    ensures Elements(pieces) == [] <==> forall i :: 0 <= i < |pieces| ==> IsVoid(pieces[i])
  {
    hide Trim, IsVoid;
    if pieces != [] {
      BlankPiece(pieces[0]);
      ElementsNone(pieces[1..]);
      assert forall i :: 0 < i < |pieces| ==> pieces[i] == pieces[1..][i - 1];
      if (forall i :: 0 <= i < |pieces[1..]| ==> IsVoid(pieces[1..][i])) && IsVoid(pieces[0]) {
        forall i | 0 <= i < |pieces| ensures IsVoid(pieces[i]) {
          assert i > 0 ==> pieces[i] == pieces[1..][i - 1];
        }
      }
    }
  }

  lemma {:induction false} VoidPieces(value: Bytes)
    ensures IsVoid(value) <==> forall i :: 0 <= i < |Split<Byte>(',', value)| ==> IsVoid(Split<Byte>(',', value)[i])
    decreases |value|
  {
    FirstPiece<Byte>(',', value);
    var first: Bytes := Split<Byte>(',', value)[0];
    if |first| == |value| {
      assert value == first;
      SplitPiece<Byte>(',', first, []);
    } else {
      var rest := value[|first| + 1..];
      VoidPieces(rest);
      hide Split;
      assert value == first + [','] + rest;
      SplitPiece<Byte>(',', first, rest);
      var pieces, more := Split<Byte>(',', value), Split<Byte>(',', rest);
      assert pieces == [first] + more;
      VoidJoin(first, rest);
      VoidList(first, more);
    }
  }

  lemma {:induction false} VoidJoin(first: Bytes, rest: Bytes)
    ensures IsVoid(first + [','] + rest) <==> IsVoid(first) && IsVoid(rest)
  {
    var s: Bytes := first + [','] + rest;
    assert forall i :: 0 <= i < |first| ==> s[i] == first[i];
    assert forall i :: 0 <= i < |rest| ==> s[|first| + 1 + i] == rest[i];
    assert forall i :: |first| + 1 <= i < |s| ==> s[i] == rest[i - |first| - 1];
  }

  lemma {:induction false} VoidList(first: Bytes, more: seq<Bytes>)
    ensures (forall i :: 0 <= i < |[first] + more| ==> IsVoid(([first] + more)[i]))
            <==> IsVoid(first) && forall i :: 0 <= i < |more| ==> IsVoid(more[i])
  {
    hide IsVoid;
    var all := [first] + more;
    assert all[0] == first && forall i :: 0 <= i < |more| ==> all[i + 1] == more[i];
    assert forall i :: 0 < i < |all| ==> all[i] == more[i - 1];
  }

  /** A list has no elements exactly when it is commas and blanks. */
  lemma {:induction false} VoidIff(value: Bytes)
    ensures Elements(Split<Byte>(',', value)) == [] <==> IsVoid(value)
  {
    hide Elements, IsVoid;
    ElementsNone(Split<Byte>(',', value));
    VoidPieces(value);
  }

  lemma {:induction false} WordPiece(piece: Bytes, word: Bytes)
    requires ',' !in piece && IsWord(word)
    ensures Trim(piece) == word <==> IsOnly(piece, word)
  {
    hide Trim;
    var front, back := TrimmedEnds(piece);
    if Trim(piece) == word {
      assert piece == front + word + back && IsVoid(front) && IsVoid(back);
    }
    if IsOnly(piece, word) {
      var p: Bytes, q: Bytes :| piece == p + word + q && IsVoid(p) && IsVoid(q);
      assert forall i :: 0 <= i < |p| ==> p[i] == piece[i];
      assert forall i :: 0 <= i < |q| ==> q[i] == piece[|p| + |word| + i];
      assert AreBlank(p) && AreBlank(q);
      TrimBetween(p, word, q);
    }
  }

  lemma {:induction false} ElementsSplit(first: Bytes, rest: Bytes)
    requires ',' !in first
    ensures var s: Bytes := first + [','] + rest;
            Elements(Split<Byte>(',', s)) == (if Trim(first) == [] then [] else [Trim(first)]) + Elements(Split<Byte>(',', rest))
  {
    hide Trim, Split;
    SplitPiece<Byte>(',', first, rest);
    var more := Split<Byte>(',', rest);
    assert ([first] + more)[1..] == more;
  }

  /** Around the only element there is nothing but commas and blanks, before or after the first comma. */
  lemma {:induction false} OnlySplits(first: Bytes, rest: Bytes, word: Bytes)
    requires ',' !in first && IsWord(word)
    ensures IsOnly(first + [','] + rest, word) <==>
            (IsOnly(first, word) && IsVoid(rest)) || (IsVoid(first) && IsOnly(rest, word))
  {
    var s: Bytes := first + [','] + rest;
    if IsOnly(s, word) {
      var p: Bytes, q: Bytes :| s == p + word + q && IsVoid(p) && IsVoid(q);
      OnlySplitsAt(first, rest, p, word, q);
    }
    if IsOnly(first, word) && IsVoid(rest) {
      OnlyBefore(first, rest, word);
    }
    if IsVoid(first) && IsOnly(rest, word) {
      OnlyBehind(first, rest, word);
    }
  }

  lemma {:induction false} OnlyBefore(first: Bytes, rest: Bytes, word: Bytes)
    requires IsOnly(first, word) && IsVoid(rest)
    ensures IsOnly(first + [','] + rest, word)
  {
    hide IsVoid;
    var p: Bytes, q: Bytes :| first == p + word + q && IsVoid(p) && IsVoid(q);
    VoidJoin(q, rest);
    Regroup(first, [','], rest);
    Regroup(p + word, q, [','] + rest);
    Regroup(q, [','], rest);
  }

  lemma {:induction false} OnlyBehind(first: Bytes, rest: Bytes, word: Bytes)
    requires IsVoid(first) && IsOnly(rest, word)
    ensures IsOnly(first + [','] + rest, word)
  {
    hide IsVoid;
    var p: Bytes, q: Bytes :| rest == p + word + q && IsVoid(p) && IsVoid(q);
    VoidJoin(first, p);
    Regroup(first + [','], p + word, q);
    Regroup(first + [','], p, word);
  }

  lemma {:induction false} OnlySplitsAt(first: Bytes, rest: Bytes, p: Bytes, word: Bytes, q: Bytes)
    requires ',' !in first && IsWord(word) && first + [','] + rest == p + word + q && IsVoid(p) && IsVoid(q)
    ensures (IsOnly(first, word) && IsVoid(rest)) || (IsVoid(first) && IsOnly(rest, word))
  {
    var s: Bytes, t: Bytes := first + [','] + rest, p + word + q;
    var k := |first|;
    assert s[k] == ',' && s == t;
    assert first == s[..k] == t[..k] && rest == s[k + 1..] == t[k + 1..];
    if k < |p| {
      assert t[..k] == p[..k] && t[k + 1..] == p[k + 1..] + word + q;
      assert IsVoid(p[..k]) && IsVoid(p[k + 1..]);
    } else {
      NotInWord(p, word, q, k);
      var j := k - |p| - |word|;
      assert t[..k] == p + word + q[..j] && t[k + 1..] == q[j + 1..];
      assert IsVoid(q[..j]) && IsVoid(q[j + 1..]);
    }
  }

  lemma {:induction false} NotInWord(p: Bytes, word: Bytes, q: Bytes, k: nat)
    requires ',' !in word && |p| <= k < |p + word + q| && (p + word + q)[k] == ','
    ensures k >= |p| + |word|
  {
  }

  /** A list has one element, `word`, exactly when that stands alone among commas and blanks. */
  lemma {:induction false} OnlyIff(value: Bytes, word: Bytes)
    requires IsWord(word)
    ensures Elements(Split<Byte>(',', value)) == [word] <==> IsOnly(value, word)
    decreases |value|
  {
    FirstPiece<Byte>(',', value);
    var first: Bytes := Split<Byte>(',', value)[0];
    hide Split, Elements, Trim, IsOnly, IsVoid, IsWord;
    WordPiece(first, word);
    if |first| == |value| {
      assert value == first;
      SplitPiece<Byte>(',', first, []);
      ElementsOfOne(first);
      NotEmpty(word);
    } else {
      var rest := value[|first| + 1..];
      assert value == first + [','] + rest;
      ElementsSplit(first, rest);
      OnlySplits(first, rest, word);
      BlankPiece(first);
      VoidIff(rest);
      OnlyIff(rest, word);
      NotEmpty(word);
      OneOfTwo(Trim(first), Elements(Split<Byte>(',', rest)), word);
    }
  }

  lemma {:induction false} NotEmpty(word: Bytes)
    requires IsWord(word)
    ensures word != []
  {
  }

  lemma {:induction false} ElementsOfOne(first: Bytes)
    ensures Elements([first]) == if Trim(first) == [] then [] else [Trim(first)]
  {
    assert [first][1..] == [];
  }

  lemma {:induction false} OneOfTwo(t: Bytes, more: seq<Bytes>, word: Bytes)
    requires word != []
    ensures (if t == [] then [] else [t]) + more == [word] <==> (t == word && more == []) || (t == [] && more == [word])
  {
    if t != [] {
      assert ([t] + more)[0] == t && |[t] + more| == 1 + |more|;
    } else {
      assert [] + more == more;
    }
  }

  // ---- Codings of all fields ----

  lemma {:induction false} CodingsFirst(h: Header, rest: seq<Header>)
    ensures Codings(Values([h] + rest, TRANSFER_ENCODING)) ==
            (if h.name == TRANSFER_ENCODING then Elements(Split<Byte>(',', h.value)) else []) + Codings(Values(rest, TRANSFER_ENCODING))
  {
    hide Elements, Split;
    assert ([h] + rest)[1..] == rest;
    var more := Values(rest, TRANSFER_ENCODING);
    if h.name == TRANSFER_ENCODING {
      assert ([h.value] + more)[1..] == more;
    } else {
      assert [] + more == more && [] + Codings(more) == Codings(more);
    }
  }

  lemma {:induction false} NoCodingIff(headers: seq<Header>)
    ensures Codings(Values(headers, TRANSFER_ENCODING)) == [] <==> NoCoding(headers)
    decreases |headers|
  {
    if headers != [] {
      var h, rest := headers[0], headers[1..];
      assert headers == [h] + rest;
      hide Codings, Values, Elements, Split, IsVoid;
      CodingsFirst(h, rest);
      VoidIff(h.value);
      NoCodingIff(rest);
      assert NoCoding(headers) <==> (h.name == TRANSFER_ENCODING ==> IsVoid(h.value)) && NoCoding(rest) by {
        assert forall i :: 0 <= i < |rest| ==> rest[i] == headers[i + 1];
        assert forall i :: 0 < i < |headers| ==> headers[i] == rest[i - 1];
      }
    }
  }

  ghost predicate SomeCoding(headers: seq<Header>, word: Bytes) {
    exists k: nat :: OneCoding(headers, k, word)
  }

  lemma {:induction false} OneCodingStep(h: Header, rest: seq<Header>, word: Bytes)
    ensures SomeCoding([h] + rest, word) <==>
            || (h.name == TRANSFER_ENCODING && IsOnly(h.value, word) && NoCoding(rest))
            || ((h.name == TRANSFER_ENCODING ==> IsVoid(h.value)) && SomeCoding(rest, word))
  {
    hide IsOnly, IsVoid;
    var all := [h] + rest;
    assert all[0] == h && forall i :: 0 <= i < |rest| ==> rest[i] == all[i + 1];
    assert forall i :: 0 < i < |all| ==> all[i] == rest[i - 1];
    if SomeCoding(all, word) {
      var k: nat :| OneCoding(all, k, word);
      if k > 0 {
        assert OneCoding(rest, k - 1, word);
      }
    }
    if h.name == TRANSFER_ENCODING && IsOnly(h.value, word) && NoCoding(rest) {
      assert OneCoding(all, 0, word);
    }
    if (h.name == TRANSFER_ENCODING ==> IsVoid(h.value)) && SomeCoding(rest, word) {
      var k: nat :| OneCoding(rest, k, word);
      assert OneCoding(all, k + 1, word);
    }
  }

  lemma {:induction false} OneCodingIff(headers: seq<Header>, word: Bytes)
    requires IsWord(word)
    ensures Codings(Values(headers, TRANSFER_ENCODING)) == [word] <==> SomeCoding(headers, word)
    decreases |headers|
  {
    if headers == [] {
      assert Codings(Values(headers, TRANSFER_ENCODING)) == [];
    } else {
      var h, rest := headers[0], headers[1..];
      assert headers == [h] + rest;
      hide Codings, Values, Elements, Split, IsVoid, IsOnly, NoCoding, SomeCoding, IsWord;
      CodingsFirst(h, rest);
      VoidIff(h.value);
      OnlyIff(h.value, word);
      NoCodingIff(rest);
      OneCodingIff(rest, word);
      OneCodingStep(h, rest, word);
      var own := if h.name == TRANSFER_ENCODING then Elements(Split<Byte>(',', h.value)) else [];
      SingleSum(own, Codings(Values(rest, TRANSFER_ENCODING)), word);
    }
  }

  lemma {:induction false} SingleSum(a: seq<Bytes>, b: seq<Bytes>, word: Bytes)
    ensures a + b == [word] <==> (a == [word] && b == []) || (a == [] && b == [word])
  {
    if a + b == [word] {
      assert |a| + |b| == 1;
      if |a| == 1 {
        assert a[0] == (a + b)[0];
      } else {
        assert a + b == b;
      }
    }
    assert [word] + [] == [word] && [] + [word] == [word];
  }

  // ---- Lengths ----

  ghost predicate AllSpell(headers: seq<Header>, n: nat) {
    forall i :: 0 <= i < |headers| && headers[i].name == CONTENT_LENGTH ==> SpellsPadded(headers[i].value, Decimal, n)
  }

  lemma {:induction false} LengthIff(value: Bytes, n: nat)
    ensures Length(value) == Some(n) <==> SpellsPadded(value, Decimal, n) && n <= 0xFFFF_FFFF_FFFF_FFFF
  {
    hide SpellsPadded, Spells, Parse, Trim;
    ParseIff(Trim(value), Decimal, U64_MAX, n);
    PaddedIff(value, Decimal, n);
  }

  lemma {:induction false} ValuesAre(headers: seq<Header>, name: Bytes)
    ensures Values(headers, name) == [] <==> !HasField(headers, name)
    ensures forall v :: v in Values(headers, name) <==> exists i :: 0 <= i < |headers| && headers[i].name == name && headers[i].value == v
    decreases |headers|
  {
    if headers != [] {
      var h, rest := headers[0], headers[1..];
      ValuesAre(rest, name);
      assert forall i :: 0 <= i < |rest| ==> rest[i] == headers[i + 1];
      assert forall i :: 0 < i < |headers| ==> headers[i] == rest[i - 1];
      var own := if h.name == name then [h.value] else [];
      assert Values(headers, name) == own + Values(rest, name);
      forall v ensures v in Values(headers, name) <==> exists i :: 0 <= i < |headers| && headers[i].name == name && headers[i].value == v {
        assert v in Values(headers, name) <==> v in own || v in Values(rest, name);
      }
    }
  }

  lemma {:induction false} LengthsIff(headers: seq<Header>, n: nat)
    requires n <= 0xFFFF_FFFF_FFFF_FFFF
    ensures AllAre(Values(headers, CONTENT_LENGTH), n) <==> AllSpell(headers, n)
  {
    hide Values, Length, SpellsPadded;
    ValuesAre(headers, CONTENT_LENGTH);
    var values := Values(headers, CONTENT_LENGTH);
    if AllAre(values, n) {
      forall i | 0 <= i < |headers| && headers[i].name == CONTENT_LENGTH ensures SpellsPadded(headers[i].value, Decimal, n) {
        assert headers[i].value in values;
        LengthIff(headers[i].value, n);
      }
    }
    if AllSpell(headers, n) {
      forall i | 0 <= i < |values| ensures Length(values[i]) == Some(n) {
        assert values[i] in values;
        LengthIff(values[i], n);
      }
    }
  }

  // ---- The rules ----

  /** No body at all. */
  lemma {:induction false} NoBodyRule(headers: seq<Header>, status: nat, headRequest: bool)
    requires headRequest || 100 <= status <= 199 || status == 204 || status == 304
    ensures Framing(headers, status, headRequest) == Some(Empty)
  {
    hide Codings, Values;
  }

  /** Neither a coding nor a length: until the connection closes. */
  lemma {:induction false} UntilCloseRule(headers: seq<Header>, status: nat)
    requires MayHaveBody(status, false) && NoCoding(headers) && !HasField(headers, CONTENT_LENGTH)
    ensures Framing(headers, status, false) == Some(Eof)
  {
    hide Codings, Values, NoCoding, HasField;
    NoCodingIff(headers);
    ValuesAre(headers, CONTENT_LENGTH);
  }

  /** Lengths and no coding: a length that all of them spell, or an error. */
  lemma {:induction false} LengthRule(headers: seq<Header>, status: nat)
    requires MayHaveBody(status, false) && NoCoding(headers) && HasField(headers, CONTENT_LENGTH)
    ensures forall n: nat :: Framing(headers, status, false) == Some(ContentLength(n)) <==>
                             AllSpell(headers, n) && n <= 0xFFFF_FFFF_FFFF_FFFF
    ensures Framing(headers, status, false).None? || Framing(headers, status, false).value.ContentLength?
  {
    hide Codings, Values, NoCoding, HasField, Length, AllSpell, AllAre;
    NoCodingIff(headers);
    ValuesAre(headers, CONTENT_LENGTH);
    var values := Values(headers, CONTENT_LENGTH);
    forall n: nat
      ensures Framing(headers, status, false) == Some(ContentLength(n)) <==> AllSpell(headers, n) && n <= 0xFFFF_FFFF_FFFF_FFFF
    {
      FirstOfAll(values, n);
      if n <= 0xFFFF_FFFF_FFFF_FFFF {
        LengthsIff(headers, n);
      } else {
        TooLargeLength(values[0], n);
      }
    }
  }

  lemma {:induction false} FirstOfAll(values: seq<Bytes>, n: nat)
    requires values != []
    ensures AllAre(values, n) ==> Length(values[0]) == Some(n)
  {
  }

  lemma {:induction false} TooLargeLength(value: Bytes, n: nat)
    requires n > 0xFFFF_FFFF_FFFF_FFFF
    ensures Length(value) != Some(n)
  {
    hide SpellsPadded;
    LengthIff(value, n);
  }

  /** A coding: chunked, alone and without a length, or an error. */
  lemma {:induction false} CodingRule(headers: seq<Header>, status: nat)
    requires MayHaveBody(status, false) && !NoCoding(headers)
    ensures Framing(headers, status, false) ==
            if !HasField(headers, CONTENT_LENGTH) && (exists word: Bytes :: IsChunkedWord(word) && SomeCoding(headers, word))
            then Some(Chunked(0, false, false)) else None
  {
    hide Codings, Values, NoCoding, HasField, SomeCoding, Lower, IsChunkedWord;
    NoCodingIff(headers);
    ValuesAre(headers, CONTENT_LENGTH);
    var codings := Codings(Values(headers, TRANSFER_ENCODING));
    forall word: Bytes | IsChunkedWord(word) ensures SomeCoding(headers, word) <==> codings == [word] {
      ChunkedWordIff(word);
      OneCodingIff(headers, word);
    }
    if |codings| == 1 {
      assert codings == [codings[0]];
      ChunkedWordIff(codings[0]);
    }
    forall word: Bytes | IsChunkedWord(word) ensures Lower(word) == "chunked" {
      ChunkedWordIff(word);
    }
  }

  lemma {:induction false} ChunkedWordIff(word: Bytes)
    ensures IsChunkedWord(word) <==> Lower(word) == "chunked"
    ensures IsChunkedWord(word) ==> IsWord(word)
  {
    var lower := Lower(word);
    assert "CHUNKED" == ['C', 'H', 'U', 'N', 'K', 'E', 'D'];
    if IsChunkedWord(word) {
      forall i | 0 <= i < 7 ensures lower[i] == "chunked"[i] {
      }
    }
    if lower == "chunked" {
      forall i | 0 <= i < 7 ensures word[i] == "chunked"[i] || word[i] == "CHUNKED"[i] {
        assert lower[i] == "chunked"[i];
      }
    }
  }
}
