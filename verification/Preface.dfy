/** Telling HTTP/2 from HTTP/1 on an accepted connection by its first octets, and replaying them. */
module Preface {
  import opened Octets

  /** The client connection preface of section 3.4 of RFC 9113. */
  const H2_PREFACE: Bytes := "PRI * HTTP/2.0\r\n\r\nSM\r\n\r\n"

  datatype Version = H1 | H2

  datatype ReadPoll = Pending | Failed | Ready(bytes: Bytes)

  /** A transport polled for octets: it may not be ready, may fail, and cuts the stream anywhere; how often
      it was not ready or failed is counted. */
  class Io {
    var unread: Bytes
    var stalls: nat
    var faults: nat
    ghost var log: seq<Bytes> // what each completed read returned

    constructor (stream: Bytes)
      ensures unread == stream && stalls == faults == 0 && log == []
    {
      unread, stalls, faults, log := stream, 0, 0, [];
    }

    method PollRead(max: nat) returns (r: ReadPoll)
      modifies this
      ensures r.Ready? ==> old(unread) == r.bytes + unread && |r.bytes| <= max
      ensures r.Ready? && r.bytes == [] ==> max == 0 || unread == []
      ensures !r.Ready? ==> unread == old(unread)
      ensures r.Ready? ==> log == old(log) + [r.bytes]
      ensures !r.Ready? ==> log == old(log)
      ensures stalls == old(stalls) + if r.Pending? then 1 else 0
      ensures faults == old(faults) + if r.Failed? then 1 else 0
    {
      if * {
        stalls := stalls + 1;
        return Pending;
      }
      if * {
        faults := faults + 1;
        return Failed;
      }
      if max == 0 || unread == [] {
        log := log + [[]];
        return Ready([]);
      }
      var count: nat :| 1 <= count <= max && count <= |unread|;
      r := Ready(unread[..count]);
      log := log + [unread[..count]];
      unread := unread[count..];
    }
  }

  /** The octets consumed by detection come first, then the connection. */
  class Rewind {
    var pre: Option<Bytes>
    const inner: Io

    constructor (inner: Io, pre: Bytes)
      ensures this.inner == inner && this.pre == Some(pre)
    {
      this.inner := inner;
      this.pre := Some(pre);
    }

    ghost function Stream(): Bytes
      reads this, inner
    {
      (if pre.Some? then pre.value else []) + inner.unread
    }

    method PollRead(max: nat) returns (r: ReadPoll)
      modifies this, inner
      ensures r.Ready? ==> old(Stream()) == r.bytes + Stream() && |r.bytes| <= max
      ensures r.Ready? && r.bytes == [] ==> max == 0 || Stream() == []
      ensures !r.Ready? ==> Stream() == old(Stream())
      ensures old(inner.log) <= inner.log
      ensures inner.stalls == old(inner.stalls) + if r.Pending? then 1 else 0
      ensures inner.faults == old(inner.faults) + if r.Failed? then 1 else 0
    {
      var prefix := if pre.Some? then pre.value else [];
      pre := None;
      if prefix != [] {
        var count := if |prefix| < max then |prefix| else max;
        assert prefix == prefix[..count] + prefix[count..];
        if prefix[count..] != [] {
          pre := Some(prefix[count..]);
        }
        return Ready(prefix[..count]);
      }
      r := inner.PollRead(max);
    }

    /** Reads on, with buffers of any sizes, until the stream ends or the transport holds back. */
    method Drain() returns (output: Bytes, ended: bool)
      modifies this, inner
      ensures old(Stream()) == output + Stream()
      ensures ended ==> output == old(Stream())
      ensures old(inner.log) <= inner.log
      ensures inner.stalls + inner.faults == old(inner.stalls) + old(inner.faults) + if ended then 0 else 1
    {
      output := [];
      while true
        invariant old(Stream()) == output + Stream()
        invariant inner.stalls == old(inner.stalls) && inner.faults == old(inner.faults) && old(inner.log) <= inner.log
        decreases |Stream()|
      {
        var room: nat :| room > 0;
        ghost var before := Stream();
        var read := PollRead(room);
        if !read.Ready? {
          return output, false;
        }
        assert output + before == (output + read.bytes) + Stream();
        output := output + read.bytes;
        if read.bytes == [] {
          return output, true;
        }
      }
    }
  }

  datatype Detection = Waiting | Cancelled | IoError | Detected(version: Version)

  /** `filled` agrees with the preface as far as it goes. */
  predicate SoFar(filled: Bytes) {
    |filled| <= |H2_PREFACE| && filled == H2_PREFACE[..|filled|]
  }

  /** All octets of a sequence of reads. */
  function Joined(taken: seq<Bytes>): Bytes {
    if taken == [] then [] else Joined(taken[..|taken| - 1]) + taken[|taken| - 1]
  }

  /** After these reads nothing is decided: none was empty, all agreed with the preface, and octets of it
      are still to come. */
  predicate Undecided(taken: seq<Bytes>) {
    && SoFar(Joined(taken)) && |Joined(taken)| < |H2_PREFACE|
    && forall i :: 0 <= i < |taken| ==> taken[i] != []
  }

  /** These reads decide for `version` and not one of them is superfluous: the last is the first that was
      empty, diverged from the preface, or completed it. */
  predicate Decides(taken: seq<Bytes>, version: Version) {
    && taken != [] && Undecided(taken[..|taken| - 1])
    && match version
       case H1 => taken[|taken| - 1] == [] || !SoFar(Joined(taken))
       case H2 => Joined(taken) == H2_PREFACE
  }

  class ReadVersion {
    const io: Io
    var filled: Bytes
    var cancelled: bool
    ghost const original: Bytes
    ghost const start: nat // how many reads of the transport came before detection

    constructor (io: Io)
      ensures Valid() && this.io == io && !cancelled && original == io.unread && start == |io.log|
    {
      this.io := io;
      filled, cancelled := [], false;
      original, start := io.unread, |io.log|;
    }

    /** Between polls only octets of the preface have been consumed, and not yet all of it. */
    ghost predicate Valid()
      reads this, io
    {
      original == filled + io.unread && Tracks() && Undecided(io.log[start..])
    }

    /** What is filled is what the reads since the start of detection returned. */
    ghost predicate Tracks()
      reads this, io
    {
      start <= |io.log| && filled == Joined(io.log[start..])
    }

    method Cancel()
      modifies this`cancelled
      ensures cancelled
    {
      cancelled := true;
    }

    /** One poll. A suspended poll can be repeated at any time. A verdict is HTTP/2 exactly when the
        stream starts with the preface; the reads made for it, over all polls, are those up to the first
        that decides and no more; they took at most 24 octets; and the replay is the original stream. */
    method Poll() returns (r: Detection, rewind: Rewind?)
      requires Valid()
      modifies this, io
      ensures cancelled == old(cancelled)
      ensures cancelled ==> r == Cancelled && io.unread == old(io.unread) && io.log == old(io.log)
      ensures r == Waiting ==> Valid()
      ensures io.stalls == old(io.stalls) + if r == Waiting then 1 else 0
      ensures io.faults == old(io.faults) + if r == IoError then 1 else 0
      ensures r == Cancelled ==> cancelled
      ensures old(io.log) <= io.log
      ensures r.Detected? ==>
                && rewind != null && fresh(rewind) && rewind.inner == io && rewind.Stream() == original
                && (r.version == H2 <==> H2_PREFACE <= original)
                && rewind.pre == Some(filled) && |filled| <= |H2_PREFACE|
                && Tracks() && Decides(io.log[start..], r.version)
    {
      hide Undecided, Decides, Joined;
      rewind := null;
      if cancelled {
        return Cancelled, null;
      }
      UndecidedSoFar(io.log[start..]);
      var version := H2;
      while |filled| < |H2_PREFACE|
        invariant if |filled| < |H2_PREFACE| then Valid() else Decided(H2)
        invariant cancelled == old(cancelled) && old(io.log) <= io.log
        invariant io.stalls == old(io.stalls) && io.faults == old(io.faults)
        decreases |H2_PREFACE| - |filled|
      {
        var read, agrees := ReadMore();
        if read.Pending? {
          return Waiting, null;
        }
        if read.Failed? {
          return IoError, null;
        }
        if !agrees {
          version := H1;
          break;
        }
      }
      rewind := new Rewind(io, filled);
      r := Detected(version);
    }

    /** The detection is over: what was read decides, and decides rightly. */
    ghost predicate Decided(version: Version)
      reads this, io
    {
      && original == filled + io.unread && |filled| <= |H2_PREFACE|
      && Tracks() && Decides(io.log[start..], version)
      && (version == H2 <==> H2_PREFACE <= original)
    }

    /** One read, and whether it was not empty and agrees with the preface. */
    method ReadMore() returns (read: ReadPoll, agrees: bool)
      requires Valid()
      modifies this`filled, io
      ensures !read.Ready? ==> Valid() && filled == old(filled)
      ensures read.Ready? && agrees ==> |filled| > old(|filled|)
      ensures read.Ready? && agrees ==> if |filled| < |H2_PREFACE| then Valid() else Decided(H2)
      ensures read.Ready? && !agrees ==> Decided(H1)
      ensures io.stalls == old(io.stalls) + if read.Pending? then 1 else 0
      ensures io.faults == old(io.faults) + if read.Failed? then 1 else 0
      ensures old(io.log) <= io.log
    {
      hide Undecided, Decides, Joined;
      ghost var taken := io.log[start..];
      UndecidedSoFar(taken);
      agrees := false;
      read := io.PollRead(|H2_PREFACE| - |filled|);
      if !read.Ready? {
        return;
      }
      var before := |filled|;
      ghost var agreed := filled;
      filled := filled + read.bytes;
      assert original == filled + io.unread && filled[..before] == agreed;
      assert io.log[start..] == taken + [read.bytes];
      OneMoreRead(taken, read.bytes);
      agrees := |filled| != before && filled[before..] == H2_PREFACE[before..|filled|];
      if agrees {
        assert filled == H2_PREFACE[..before] + H2_PREFACE[before..|filled|];
      } else {
        Diverges(filled, before, original, io.unread);
      }
    }
  }

  lemma {:induction false} UndecidedSoFar(taken: seq<Bytes>)
    requires Undecided(taken)
    ensures SoFar(Joined(taken)) && |Joined(taken)| < |H2_PREFACE|
  {
  }

  lemma {:induction false} OneMoreRead(taken: seq<Bytes>, bytes: Bytes)
    requires Undecided(taken) && |Joined(taken)| + |bytes| <= |H2_PREFACE|
    ensures var more, all := taken + [bytes], Joined(taken) + bytes;
            && Joined(more) == all
            && (bytes == [] || !SoFar(all) ==> Decides(more, H1))
            && (bytes != [] && SoFar(all) ==> if |all| < |H2_PREFACE| then Undecided(more) else Decides(more, H2))
  {
    var more := taken + [bytes];
    assert more[..|taken|] == taken;
    assert H2_PREFACE[..|H2_PREFACE|] == H2_PREFACE;
  }

  /** The reads that decide are determined by the reads made: no proper prefix of them decides. */
  lemma {:induction false} DecidesOnce(taken: seq<Bytes>, version: Version, k: nat, other: Version)
    requires Decides(taken, version) && 0 < k < |taken|
    ensures !Decides(taken[..k], other)
  {
    var early, last := taken[..k], taken[..|taken| - 1];
    assert last[..k] == early;
    JoinedPrefix(last, k);
    assert early[k - 1] == last[k - 1];
  }

  lemma {:induction false} JoinedPrefix(taken: seq<Bytes>, k: nat)
    requires k <= |taken|
    ensures Joined(taken[..k]) <= Joined(taken)
  {
    if k < |taken| {
      var rest := taken[..|taken| - 1];
      JoinedPrefix(rest, k);
      assert rest[..k] == taken[..k];
    } else {
      assert taken[..k] == taken;
    }
  }

  /** A short stream, or one octet out of place, is not the preface. */
  lemma {:induction false} Diverges(filled: Bytes, before: nat, original: Bytes, unread: Bytes)
    requires before <= |filled| <= |H2_PREFACE| && original == filled + unread
    requires (|filled| == before < |H2_PREFACE| && unread == []) || filled[before..] != H2_PREFACE[before..|filled|]
    ensures !(H2_PREFACE <= original)
    ensures |filled| == before || !SoFar(filled)
  {
    assert H2_PREFACE <= original ==> original[..|filled|] == H2_PREFACE[..|filled|];
  }

  /** Any number of suspended polls, then a verdict, then a drain: HTTP/2 exactly for the preface, decided
      by the first reads that can decide it, and not an octet of the connection is lost, repeated or
      reordered. */
  method DetectAndDrain(io: Io, polls: nat)
    returns (r: Detection, output: Bytes, ended: bool, ghost taken: seq<Bytes>)
    modifies io
    ensures r.Detected? ==> (r.version == H2 <==> H2_PREFACE <= old(io.unread)) && output <= old(io.unread)
    ensures r.Detected? ==> Decides(taken, r.version) && old(io.log) + taken <= io.log
    ensures r.Detected? && ended ==> output == old(io.unread)
    ensures polls > 0 && io.stalls == old(io.stalls) && io.faults == old(io.faults) ==> r.Detected? && ended
  {
    var detector := new ReadVersion(io);
    r, output, ended, taken := Waiting, [], false, [];
    var i := 0;
    while i < polls && r == Waiting
      invariant r == Waiting && fresh(detector) && detector.io == io && detector.Valid()
      invariant detector.original == old(io.unread) && !detector.cancelled
      invariant detector.start == |old(io.log)| && old(io.log) <= io.log
      invariant io.stalls == old(io.stalls) + i && io.faults == old(io.faults)
    {
      var rewind;
      r, rewind := detector.Poll();
      if r.Detected? {
        taken := io.log[detector.start..];
        assert old(io.log) + taken == io.log;
        output, ended := rewind.Drain();
        return;
      }
      if r != Waiting {
        return;
      }
      i := i + 1;
    }
  }
}
