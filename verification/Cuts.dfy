/** Reading from a connection into a buffer until some octets are found: which verdicts are possible, over
    all the ways in which the stream may be cut into reads. */
module Cuts {
  import opened Octets

  const READ_SIZE: nat := 4096

  function Total(cuts: seq<nat>): nat {
    if cuts == [] then 0 else Total(cuts[..|cuts| - 1]) + cuts[|cuts| - 1]
  }

  /** What is buffered after reads of these sizes. */
  function Held(buffered: Bytes, unread: Bytes, cuts: seq<nat>): Bytes
    requires Total(cuts) <= |unread|
  {
    buffered + unread[..Total(cuts)]
  }

  /** The reader goes on: nothing found, and the limit not reached. */
  predicate IsOpen(needle: Bytes, held: Bytes, max: nat) {
    Find(needle, held).None? && |held| < max
  }

  /** The sizes of the reads that the reader may make: each is made because the one before left the question
      open, is at most a full read, and is empty only at the end of the stream. */
  predicate AreCuts(needle: Bytes, buffered: Bytes, unread: Bytes, cuts: seq<nat>, max: nat)
    ensures AreCuts(needle, buffered, unread, cuts, max) ==> Total(cuts) <= |unread|
  {
    cuts == [] ||
    var before, last := cuts[..|cuts| - 1], cuts[|cuts| - 1];
    && AreCuts(needle, buffered, unread, before, max)
    && IsOpen(needle, Held(buffered, unread, before), max)
    && (before == [] || before[|before| - 1] > 0)
    && last <= READ_SIZE && Total(before) + last <= |unread| && (last == 0 ==> Total(before) == |unread|)
  }

  datatype Verdict = Found(end: nat) | TooLong | Closed | Undecided

  function Judged(needle: Bytes, buffered: Bytes, unread: Bytes, cuts: seq<nat>, max: nat): Verdict
    requires Total(cuts) <= |unread|
  {
    if cuts != [] && cuts[|cuts| - 1] == 0 then Closed
    else
      match Find(needle, Held(buffered, unread, cuts))
      case Some(end) => Found(end)
      case None => if |Held(buffered, unread, cuts)| >= max then TooLong else Undecided
  }

  /** One more read. */
  lemma {:induction false} CutsMore(needle: Bytes, buffered: Bytes, unread: Bytes, cuts: seq<nat>, max: nat, n: nat)
    requires AreCuts(needle, buffered, unread, cuts, max) && IsOpen(needle, Held(buffered, unread, cuts), max)
    requires cuts == [] || cuts[|cuts| - 1] > 0
    requires n <= READ_SIZE && Total(cuts) + n <= |unread| && (n == 0 ==> Total(cuts) == |unread|)
    ensures AreCuts(needle, buffered, unread, cuts + [n], max) && Total(cuts + [n]) == Total(cuts) + n
  {
    assert (cuts + [n])[..|cuts|] == cuts;
  }

  ghost predicate MayJudge(needle: Bytes, buffered: Bytes, unread: Bytes, max: nat, v: Verdict) {
    exists cuts :: AreCuts(needle, buffered, unread, cuts, max) && Judged(needle, buffered, unread, cuts, max) == v
  }

  /** Where what is looked for ends, if it is there. */
  predicate Reaches(needle: Bytes, s: Bytes, length: nat) {
    Find(needle, s).Some? && Find(needle, s).value + |needle| <= length
  }

  /** A part of the stream shows the needle exactly when it reaches past it. */
  lemma {:induction false} FoundInPart(needle: Bytes, part: Bytes, rest: Bytes)
    ensures Find(needle, part) == if Reaches(needle, part + rest, |part|) then Find(needle, part + rest) else None
  {
    hide FindFrom;
    FindInPrefix(needle, part, rest);
  }

  lemma {:induction false} FoundInHeld(needle: Bytes, buffered: Bytes, unread: Bytes, cuts: seq<nat>)
    requires Total(cuts) <= |unread|
    ensures var held, s := Held(buffered, unread, cuts), buffered + unread;
            |held| == |buffered| + Total(cuts) && Find(needle, held) == if Reaches(needle, s, |held|) then Find(needle, s) else None
  {
    hide Find, Reaches;
    var held := Held(buffered, unread, cuts);
    assert held + unread[Total(cuts)..] == buffered + unread;
    FoundInPart(needle, held, unread[Total(cuts)..]);
  }

  /** Reading one octet at a time, as long as that leaves the question open. */
  lemma {:induction false} OneByOne(needle: Bytes, buffered: Bytes, unread: Bytes, max: nat, k: nat) returns (cuts: seq<nat>)
    requires k <= |unread|
    requires k == 0 || (|buffered| + k <= max && !Reaches(needle, buffered + unread, |buffered| + k - 1))
    ensures AreCuts(needle, buffered, unread, cuts, max) && Total(cuts) == k
    ensures cuts == [] || cuts[|cuts| - 1] > 0
  {
    hide Find, AreCuts;
    if k == 0 {
      cuts := [];
      NoCuts(needle, buffered, unread, max);
    } else {
      cuts := OneByOne(needle, buffered, unread, max, k - 1);
      FoundInHeld(needle, buffered, unread, cuts);
      CutsMore(needle, buffered, unread, cuts, max, 1);
      cuts := cuts + [1];
    }
  }

  lemma {:induction false} NoCuts(needle: Bytes, buffered: Bytes, unread: Bytes, max: nat)
    ensures AreCuts(needle, buffered, unread, [], max)
  {
  }

  lemma {:induction false} WithinStream(needle: Bytes, s: Bytes)
    requires Find(needle, s).Some?
    ensures Find(needle, s).value + |needle| <= |s|
  {
  }

  /** Some way of cutting the stream has the reader refuse it, exactly when what it looks for ends past the
      limit and is not yet buffered whole. */
  lemma {:induction false} MayRefuseIff(needle: Bytes, buffered: Bytes, unread: Bytes, max: nat)
    requires Find(needle, buffered + unread).Some?
    ensures var past := Find(needle, buffered + unread).value + |needle|;
            MayJudge(needle, buffered, unread, max, TooLong) <==> max < past && |buffered| < past
  {
    hide Find, AreCuts;
    var past := Find(needle, buffered + unread).value + |needle|;
    if cuts :| AreCuts(needle, buffered, unread, cuts, max) && Judged(needle, buffered, unread, cuts, max) == TooLong {
      FoundInHeld(needle, buffered, unread, cuts);
    }
    if max < past && |buffered| < past {
      WithinStream(needle, buffered + unread);
      var cuts := OneByOne(needle, buffered, unread, max, if |buffered| < max then max - |buffered| else 0);
      FoundInHeld(needle, buffered, unread, cuts);
      assert Judged(needle, buffered, unread, cuts, max) == TooLong;
    }
  }

  /** Some way of cutting the stream has the reader accept it, exactly when what it looks for is buffered, or
      can be reached by one full read from just below the limit. */
  lemma {:induction false} MayAcceptIff(needle: Bytes, buffered: Bytes, unread: Bytes, max: nat)
    requires Find(needle, buffered + unread).Some?
    ensures var end := Find(needle, buffered + unread).value;
            MayJudge(needle, buffered, unread, max, Found(end)) <==>
            |buffered| >= end + |needle| || (|buffered| < max && end + |needle| < max + READ_SIZE)
  {
    hide Find;
    var end := Find(needle, buffered + unread).value;
    if cuts :| AreCuts(needle, buffered, unread, cuts, max) && Judged(needle, buffered, unread, cuts, max) == Found(end) {
      FoundInHeld(needle, buffered, unread, cuts);
      if cuts != [] {
        FoundInHeld(needle, buffered, unread, cuts[..|cuts| - 1]);
      }
    }
    hide AreCuts;
    if |buffered| >= end + |needle| {
      NoCuts(needle, buffered, unread, max);
      FoundInHeld(needle, buffered, unread, []);
      assert Judged(needle, buffered, unread, [], max) == Found(end);
    } else if |buffered| < max && end + |needle| < max + READ_SIZE {
      AcceptingCuts(needle, buffered, unread, max);
    }
  }

  lemma {:induction false} AcceptingCuts(needle: Bytes, buffered: Bytes, unread: Bytes, max: nat)
    requires Find(needle, buffered + unread).Some?
    requires var past := Find(needle, buffered + unread).value + |needle|;
             |buffered| < past && |buffered| < max && past < max + READ_SIZE
    ensures MayJudge(needle, buffered, unread, max, Found(Find(needle, buffered + unread).value))
  {
    hide Find, AreCuts;
    WithinStream(needle, buffered + unread);
    var end := Find(needle, buffered + unread).value;
    var almost := if end + |needle| <= max then end + |needle| - 1 else max - 1;
    var before := OneByOne(needle, buffered, unread, max, almost - |buffered|);
    FoundInHeld(needle, buffered, unread, before);
    var last := end + |needle| - almost;
    CutsMore(needle, buffered, unread, before, max, last);
    FoundInHeld(needle, buffered, unread, before + [last]);
    assert Judged(needle, buffered, unread, before + [last], max) == Found(end);
  }

  /** So the verdict on what is in the stream depends on how the stream is cut, exactly when it ends within
      one read past the limit, and the limit is not already reached. */
  lemma {:induction false} CutDecidesIff(needle: Bytes, buffered: Bytes, unread: Bytes, max: nat)
    requires Find(needle, buffered + unread).Some?
    ensures var end := Find(needle, buffered + unread).value;
            MayJudge(needle, buffered, unread, max, TooLong) && MayJudge(needle, buffered, unread, max, Found(end)) <==>
            |buffered| < max < end + |needle| < max + READ_SIZE
  {
    hide MayJudge;
    MayRefuseIff(needle, buffered, unread, max);
    MayAcceptIff(needle, buffered, unread, max);
  }

  /** What is not in the stream is judged by the stream's length alone, however it is cut. */
  lemma {:induction false} MissingIsJudgedAlike(needle: Bytes, buffered: Bytes, unread: Bytes, max: nat)
    requires Find(needle, buffered + unread).None?
    ensures MayJudge(needle, buffered, unread, max, TooLong) <==> |buffered + unread| >= max
    ensures MayJudge(needle, buffered, unread, max, Closed) <==> |buffered + unread| < max
    ensures forall end :: !MayJudge(needle, buffered, unread, max, Found(end))
  {
    hide AreCuts, Find;
    forall cuts | AreCuts(needle, buffered, unread, cuts, max)
      ensures var v := Judged(needle, buffered, unread, cuts, max);
              !v.Found? && (v.TooLong? ==> |buffered + unread| >= max) && (v.Closed? ==> |buffered + unread| < max)
    {
      FoundInHeld(needle, buffered, unread, cuts);
      if Judged(needle, buffered, unread, cuts, max).Closed? {
        ClosedBelow(needle, buffered, unread, cuts, max);
      }
    }
    if |buffered + unread| >= max {
      var cuts := OneByOne(needle, buffered, unread, max, if |buffered| < max then max - |buffered| else 0);
      FoundInHeld(needle, buffered, unread, cuts);
      assert Judged(needle, buffered, unread, cuts, max) == TooLong;
    } else {
      var cuts := OneByOne(needle, buffered, unread, max, |unread|);
      FoundInHeld(needle, buffered, unread, cuts);
      CutsMore(needle, buffered, unread, cuts, max, 0);
      assert Judged(needle, buffered, unread, cuts + [0], max) == Closed;
    }
  }

  lemma {:induction false} ClosedBelow(needle: Bytes, buffered: Bytes, unread: Bytes, cuts: seq<nat>, max: nat)
    requires AreCuts(needle, buffered, unread, cuts, max) && Judged(needle, buffered, unread, cuts, max).Closed?
    ensures |buffered + unread| < max
  {
    hide Find;
    assert IsOpen(needle, Held(buffered, unread, cuts[..|cuts| - 1]), max);
  }

  // ---- A reader at work ----

  /** A reader whose connection logged `log'` after `log` went through exactly those reads, to this verdict. */
  predicate Scans(
    needle: Bytes, buffered: Bytes, unread: Bytes, log: seq<nat>, log': seq<nat>, max: nat, v: Verdict)
  {
    && log <= log'
    && var cuts := log'[|log|..];
       AreCuts(needle, buffered, unread, cuts, max) && Judged(needle, buffered, unread, cuts, max) == v
  }

  /** The reader is in the middle: so far it holds `held`, `left` is still unread, its reads are what was
      logged in `log'` after `log`, and the last of them brought something. */
  predicate IsScanning(
    needle: Bytes, buffered: Bytes, unread: Bytes, log: seq<nat>, max: nat, held: Bytes, left: Bytes, log': seq<nat>)
  {
    && log <= log'
    && var cuts := log'[|log|..];
       && AreCuts(needle, buffered, unread, cuts, max) && held == Held(buffered, unread, cuts)
       && left == unread[Total(cuts)..] && (cuts == [] || cuts[|cuts| - 1] > 0)
  }

  lemma {:induction false} StartsScanning(needle: Bytes, buffered: Bytes, unread: Bytes, log: seq<nat>, max: nat)
    ensures IsScanning(needle, buffered, unread, log, max, buffered, unread, log)
  {
    assert log[|log|..] == [] && unread[..0] == [] && buffered + [] == buffered && unread[0..] == unread;
  }

  /** The verdict of a reader that stops here; in any case nothing is lost. */
  lemma {:induction false} StopsScanning(
    needle: Bytes, buffered: Bytes, unread: Bytes, log: seq<nat>, max: nat, held: Bytes, left: Bytes, log': seq<nat>)
    requires IsScanning(needle, buffered, unread, log, max, held, left, log')
    ensures held + left == buffered + unread
    ensures Scans(needle, buffered, unread, log, log', max,
                  match Find(needle, held)
                  case Some(end) => Found(end)
                  case None => if |held| >= max then TooLong else Undecided)
  {
    hide AreCuts, Find;
    var t := Total(log'[|log|..]);
    assert unread == unread[..t] + unread[t..];
    Regroup(buffered, unread[..t], unread[t..]);
  }

  /** The reader goes on, and reads. */
  lemma {:induction false} ScansOn(
    needle: Bytes, buffered: Bytes, unread: Bytes, log: seq<nat>, max: nat, held: Bytes, read: Bytes, left: Bytes, log': seq<nat>)
    requires IsScanning(needle, buffered, unread, log, max, held, read + left, log') && IsOpen(needle, held, max)
    requires |read| <= READ_SIZE && (read == [] ==> left == [])
    ensures read != [] ==> IsScanning(needle, buffered, unread, log, max, held + read, left, log' + [|read|])
    ensures read == [] ==> Scans(needle, buffered, unread, log, log' + [|read|], max, Closed)
    ensures read == [] ==> held == buffered + unread
  {
    hide IsOpen, AreCuts, Find;
    StopsScanning(needle, buffered, unread, log, max, held, read + left, log');
    var cuts := log'[|log|..];
    var t := Total(cuts);
    assert (log' + [|read|])[|log|..] == cuts + [|read|];
    assert unread[t..] == read + left;
    CutsMore(needle, buffered, unread, cuts, max, |read|);
    assert unread[t..][..|read|] == read && unread[t..][|read|..] == left;
    assert unread[..t + |read|] == unread[..t] + read;
    Regroup(buffered, unread[..t], read);
  }
}
