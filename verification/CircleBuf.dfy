/** The history kept by a circular buffer. */
module CircleBuf {
  import opened Options

  function Min(a: nat, b: nat): nat { if a < b then a else b }

  /** The last `n` items of a history, or all of it if it is shorter. */
  function Recent<T>(h: seq<T>, n: nat): seq<T> {
    if |h| <= n then h else h[|h| - n..]
  }

  /** Where a write of `len` items leaves the stop position. */
  function NextStop(stop: nat, len: nat, buflen: nat): nat {
    if len == 0 then stop
    else if len >= buflen then buflen
    else if stop + len <= buflen then stop + len
    else stop + len - buflen
  }

  /** Whether a write from `stop` to `stop'` is taken to have passed the read cursor. */
  predicate Overrun(start: nat, stop: nat, stop': nat) {
    (start > stop && start < stop') || (start < stop && stop' < stop)
  }

  /** Where a write of `len` items leaves the read cursor. */
  function NextStart(start: nat, stop: nat, len: nat, buflen: nat): nat {
    if len == 0 then start
    else if len >= buflen then 0
    else
      var stop' := NextStop(stop, len, buflen);
      if Overrun(start, stop, stop') then stop' + 1 else start
  }

  /** A write that ends exactly at the end of the buffer and runs over a cursor inside it. */
  predicate PushesPast(start: nat, stop: nat, len: nat, buflen: nat) {
    len < buflen && stop < start < buflen && stop + len == buflen
  }

  /** Such writes, and no others, push a cursor that was inside the buffer past its end. A cursor that is past the
      end comes back only by a write as long as the buffer. */
  lemma {:induction false} CursorStays(start: nat, stop: nat, len: nat, buflen: nat)
    requires stop <= buflen
    ensures start <= buflen ==>
      (NextStart(start, stop, len, buflen) <= buflen <==> !PushesPast(start, stop, len, buflen))
    ensures start == buflen + 1 ==> (NextStart(start, stop, len, buflen) <= buflen <==> len > 0 && len >= buflen)
    ensures start <= buflen + 1 ==> NextStart(start, stop, len, buflen) <= buflen + 1
    ensures 0 <= NextStop(stop, len, buflen) <= buflen
  {
  }

  /** Where a consuming read of `len` items leaves the cursor. */
  function AfterRead(start: nat, stop: nat, len: nat, buflen: nat): nat
    requires start <= buflen
  {
    if stop > start then Min(start + len, stop)
    else if buflen - start > len then start + len
    else Min(len - (buflen - start), stop)
  }

  method Memcpy<T>(dst: array<T>, at: nat, src: seq<T>)
    requires at + |src| <= dst.Length
    modifies dst
    ensures dst[..] == old(dst[..at]) + src + old(dst[at + |src|..])
  {
    var k := 0;
    while k < |src|
      invariant 0 <= k <= |src|
      invariant forall i :: 0 <= i < dst.Length ==> dst[i] == if at <= i < at + k then src[i - at] else old(dst[i])
    {
      dst[at + k] := src[k];
      k := k + 1;
    }
  }

  class CircleBuf<T(0)> {
    const buf: array<T>
    var rollover: bool
    var size: int
    var start: nat
    var stop: nat
    /** Everything written since the last flush. */
    ghost var history: seq<T>

    ghost predicate Valid()
      reads this, buf
    {
      && stop <= buf.Length && start <= buf.Length + 1
      && Holds(buf[..], stop, rollover, history)
    }

    constructor (l: nat)
      ensures Valid() && fresh(buf) && buf.Length == l && history == []
      ensures !rollover && size == 0 && start == 0 && stop == 0
    {
      buf := new T[l];
      rollover, size, start, stop := false, 0, 0, 0;
      history := [];
    }

    method Flush()
      modifies this
      ensures Valid() && history == [] && size == old(size) && start == 0 && stop == 0 && !rollover
    {
      start, stop, rollover := 0, 0, false;
      history := [];
    }

    /** Append `b` to the history, overwriting the oldest items. */
    method Write(b: seq<T>)
      requires Valid()
      modifies this, buf
      ensures Valid() && history == old(history) + b
      ensures size ==
        if b == [] then old(size) else if old(size) + |b| > buf.Length then buf.Length else old(size) + |b|
      ensures stop == NextStop(old(stop), |b|, buf.Length)
      ensures start == NextStart(old(start), old(stop), |b|, buf.Length)
    {
      var len := |b|;
      if len <= 0 {
        assert history + b == history;
        return;
      }
      size := size + len;
      if size > buf.Length {
        size := buf.Length;
      }
      var oldStart, oldStop := start, stop;
      Store(b);
      if len >= buf.Length {
        start := 0;
        return;
      }
      if (oldStart > oldStop && oldStart < stop) || (oldStart < oldStop && stop < oldStop) {
        start := stop + 1;
      }
    }

    /** The copying part of a write. */
    method Store(b: seq<T>)
      requires Valid() && b != []
      modifies this`stop, this`rollover, this`history, buf
      ensures Valid() && history == old(history) + b && stop == NextStop(old(stop), |b|, buf.Length)
    {
      hide Holds;
      var len := |b|;
      var oldStop := stop;
      ghost var was := buf[..];
      if len >= buf.Length {
        stop := buf.Length;
        rollover := true;
        Memcpy(buf, 0, b[len - buf.Length..]);
        assert buf[..] == b[len - buf.Length..];
        Replaced(was, history, b);
      } else if stop + len <= buf.Length {
        Memcpy(buf, stop, b);
        assert buf[..] == was[..oldStop] + b + was[oldStop + len..];
        stop := stop + len;
        Appended(was, oldStop, rollover, history, b);
      } else {
        var endLen := buf.Length - oldStop;
        stop := len - endLen;
        Memcpy(buf, oldStop, b[..endLen]);
        ghost var mid := buf[..];
        assert mid == was[..oldStop] + b[..endLen];
        Memcpy(buf, 0, b[endLen..]);
        assert buf[..] == b[endLen..] + mid[stop..];
        Wrapped(was, oldStop, rollover, history, b);
        rollover := true;
      }
      history := history + b;
    }

    /** Everything still held, oldest first: exactly the most recent items written. */
    method ReadAll() returns (out: seq<T>)
      requires Valid()
      modifies this`start
      ensures Valid() && start == stop
      ensures out == Recent(history, buf.Length)
    {
      out := [];
      if rollover {
        out := buf[stop..];
      }
      out := out + buf[..stop];
      start := stop;
    }

    /** A consuming read of at most `len0` items moves only the read cursor and the size. It copies a negative
        number of bytes, and gives nothing here, exactly when the cursor is past the end of the buffer. */
    method Read(len0: nat) returns (out: Option<seq<T>>)
      requires Valid()
      modifies this`start, this`size
      ensures out.None? <==> old(start) > buf.Length
      ensures out.Some? ==> Valid() && size == (if old(size) - len0 < 0 then 0 else old(size) - len0)
      ensures out.Some? ==> start == AfterRead(old(start), stop, len0, buf.Length) <= buf.Length && |out.value| <= len0
      ensures out.Some? ==>
        out.value == if stop > old(start) || buf.Length - old(start) > len0 then buf[old(start)..start]
                     else buf[old(start)..] + buf[..start]
      ensures out.Some? ==> TakesNext(buf[..], old(start), start, stop, len0, out.value)
      ensures out.Some? && ReadsWritten(old(start), stop, buf.Length, rollover) ==>
        OldestOf(history, |Unread(buf[..], old(start), stop)|, len0, out.value)
    {
      hide Holds, Unread, TakesNext, OldestOf;
      ghost var s := buf[..];
      ReadTakes(s, start, stop, len0, rollover, history);
      size := size - len0;
      if size < 0 {
        size := 0;
      }
      if stop > start {
        var len := Min(len0, stop - start);
        out := Some(buf[start..start + len]);
        start := start + len;
      } else if start > buf.Length {
        out := None;
      } else {
        var endLen := buf.Length - start;
        if endLen > len0 {
          out := Some(buf[start..start + len0]);
          start := start + len0;
        } else {
          var tail := buf[start..];
          start := Min(len0 - endLen, stop);
          out := Some(tail + buf[..start]);
        }
      }
    }

    /** A consuming read of everything between the cursor and the stop, with the same exception. */
    method ReadRest() returns (out: Option<seq<T>>)
      requires Valid()
      modifies this`start, this`size
      ensures out.None? <==> old(start) > buf.Length
      ensures out.Some? ==> Valid() && size == 0 && start == stop
      ensures out.Some? ==>
        out.value == if stop > old(start) then buf[old(start)..stop] else buf[old(start)..] + buf[..stop]
      ensures out.Some? ==>
        (|out.value| <= |history| && out.value == history[|history| - |out.value|..] <==>
         ReadsWritten(old(start), stop, buf.Length, rollover))
    {
      if start <= buf.Length {
        UnreadIsRecent(buf[..], start, stop, rollover, history);
      }
      size := 0;
      if stop > start {
        out := Some(buf[start..stop]);
      } else if start > buf.Length {
        out := None;
      } else {
        out := Some(buf[start..] + buf[..stop]);
      }
      start := stop;
    }

    /** Any interleaving of writes, reads and flushes: it runs to its end exactly when no consuming read finds the
        cursor past the end of the buffer. */
    method Run(ops: seq<Op<T>>) returns (ran: nat)
      requires Valid()
      modifies this, buf
      ensures ran <= |ops| && (ran == |ops| <==> Safe(old(start), old(stop), buf.Length, ops))
      ensures ran == |ops| ==> Valid() && history == Written(old(history), ops)
    {
      hide Holds;
      ran := 0;
      while ran < |ops|
        invariant 0 <= ran <= |ops| && Valid()
        invariant Safe(old(start), old(stop), buf.Length, ops) <==> Safe(start, stop, buf.Length, ops[ran..])
        invariant Written(old(history), ops) == Written(history, ops[ran..])
      {
        ghost var rest := ops[ran..];
        assert rest[0] == ops[ran] && rest[1..] == ops[ran + 1..];
        var done := Do(ops[ran]);
        if !done {
          return;
        }
        ran := ran + 1;
      }
    }

    /** One operation of a run. */
    method Do(op: Op<T>) returns (done: bool)
      requires Valid()
      modifies this, buf
      ensures done <==> (op.Take? || op.TakeRest? ==> old(start) <= buf.Length)
      ensures done ==> Valid()
      ensures done ==> history == if op.Put? then old(history) + op.b else if op.Clear? then [] else old(history)
      ensures done ==> start == StartAfter(old(start), old(stop), buf.Length, op)
      ensures done ==> stop == StopAfter(old(stop), buf.Length, op)
    {
      hide Holds;
      match op {
        case Put(b) => Write(b); done := true;
        case Take(len) => var out := Read(len); done := out.Some?;
        case TakeRest => var out := ReadRest(); done := out.Some?;
        case TakeAll => var _ := ReadAll(); done := true;
        case Clear => Flush(); done := true;
      }
    }

    /** After any such run, reading all gives the most recent items written since the last flush. */
    method RunThenReadAll(ops: seq<Op<T>>) returns (out: Option<seq<T>>)
      requires Valid()
      modifies this, buf
      ensures out.Some? <==> Safe(old(start), old(stop), buf.Length, ops)
      ensures out.Some? ==> out.value == Recent(Written(old(history), ops), buf.Length)
    {
      hide Holds;
      var ran := Run(ops);
      out := None;
      if ran == |ops| {
        var all := ReadAll();
        out := Some(all);
      }
    }
  }

  // ----- What is read -----

  /** The items from the read cursor up to the stop; if the two meet, those of the whole buffer. */
  function Unread<T>(s: seq<T>, start: nat, stop: nat): seq<T>
    requires stop <= |s|
  {
    if stop > start then s[start..stop] else if start <= |s| then s[start..] + s[..stop] else []
  }

  /** A read takes the next items, as many as there are, and the next read goes on where it stopped. */
  ghost predicate TakesNext<T>(s: seq<T>, start: nat, next: nat, stop: nat, len: nat, out: seq<T>)
    requires stop <= |s|
  {
    var rest := Unread(s, start, stop);
    && out == rest[..Min(len, |rest|)]
    && (len < |rest| ==> Unread(s, next, stop) == rest[len..]) && (len >= |rest| ==> next == stop)
  }

  /** At most `len` items, the oldest of the last `n` of a history. */
  ghost predicate OldestOf<T>(h: seq<T>, n: nat, len: nat, out: seq<T>) {
    n <= |h| && out == h[|h| - n..][..Min(len, n)]
  }

  lemma {:induction false} ReadTakes<T>(s: seq<T>, start: nat, stop: nat, len: nat, rollover: bool, h: seq<T>)
    requires stop <= |s| && Holds(s, stop, rollover, h)
    ensures start <= |s| ==>
      var next := AfterRead(start, stop, len, |s|);
      && next <= |s| && (stop > start || |s| - start > len ==> start <= next)
      && var out := if stop > start || |s| - start > len then s[start..next] else s[start..] + s[..next];
         && TakesNext(s, start, next, stop, len, out)
         && (ReadsWritten(start, stop, |s|, rollover) ==> OldestOf(h, |Unread(s, start, stop)|, len, out))
  {
    if start <= |s| {
      UnreadIsRecent(s, start, stop, rollover, h);
      hide Holds;
      TakesOut(s, start, stop, len);
    }
  }

  lemma {:induction false} TakesOut<T>(s: seq<T>, start: nat, stop: nat, len: nat)
    requires stop <= |s| && start <= |s|
    ensures var next := AfterRead(start, stop, len, |s|);
      && next <= |s| && (stop > start || |s| - start > len ==> start <= next)
      && var out := if stop > start || |s| - start > len then s[start..next] else s[start..] + s[..next];
         TakesNext(s, start, next, stop, len, out)
  {
    if stop <= start && |s| - start <= len {
      var k := len - (|s| - start);
      if k < stop {
        assert (s[start..] + s[..stop])[..len] == s[start..] + s[..k];
        assert (s[start..] + s[..stop])[len..] == s[k..stop];
      } else {
        assert (s[start..] + s[..stop])[..|s| - start + stop] == s[start..] + s[..stop];
      }
    } else if stop <= start {
      assert (s[start..] + s[..stop])[..len] == s[start..start + len];
      assert (s[start..] + s[..stop])[len..] == s[start + len..] + s[..stop];
    }
  }

  /** Whether the items from the cursor on have all been written: not if the cursor is at the stop or beyond it, but
      inside a buffer that has not rolled over. */
  predicate ReadsWritten(start: nat, stop: nat, buflen: nat, rollover: bool) {
    rollover || start < stop || start == buflen
  }

  /** Exactly then they are the items written last, in order. */
  lemma {:induction false} UnreadIsRecent<T>(s: seq<T>, start: nat, stop: nat, rollover: bool, h: seq<T>)
    requires stop <= |s| && start <= |s| && Holds(s, stop, rollover, h)
    ensures var rest := Unread(s, start, stop);
      (|rest| <= |h| && rest == h[|h| - |rest|..]) <==> ReadsWritten(start, stop, |s|, rollover)
  {
    if rollover {
      var r := s[stop..] + s[..stop];
      var from := if stop > start then |s| - stop + start else start - stop;
      assert Unread(s, start, stop) == r[from..];
      assert r[from..] == h[|h| - |s| + from..];
    }
  }

  // ----- Interleavings -----

  datatype Op<T> = Put(b: seq<T>) | Take(len: nat) | TakeRest | TakeAll | Clear

  /** What has been written since the last flush. */
  function Written<T>(h: seq<T>, ops: seq<Op<T>>): seq<T>
    decreases |ops|
  {
    if ops == [] then h
    else Written(match ops[0] case Put(b) => h + b case Clear => [] case _ => h, ops[1..])
  }

  function StopAfter<T>(stop: nat, buflen: nat, op: Op<T>): nat {
    match op
    case Put(b) => NextStop(stop, |b|, buflen)
    case Clear => 0
    case _ => stop
  }

  function StartAfter<T>(start: nat, stop: nat, buflen: nat, op: Op<T>): nat
    requires op.Take? ==> start <= buflen
  {
    match op
    case Put(b) => NextStart(start, stop, |b|, buflen)
    case Take(len) => AfterRead(start, stop, len, buflen)
    case Clear => 0
    case _ => stop
  }

  /** Every consuming read finds the cursor inside the buffer. */
  predicate Safe<T>(start: nat, stop: nat, buflen: nat, ops: seq<Op<T>>)
    decreases |ops|
  {
    ops == [] ||
    ((ops[0].Take? || ops[0].TakeRest? ==> start <= buflen) &&
     Safe(StartAfter(start, stop, buflen, ops[0]), StopAfter(stop, buflen, ops[0]), buflen, ops[1..]))
  }

  /** No write of the run pushes the cursor past the end. */
  predicate NeverPushed<T>(start: nat, stop: nat, buflen: nat, ops: seq<Op<T>>)
    requires start <= buflen && stop <= buflen
    decreases |ops|
  {
    ops == [] ||
    (!(ops[0].Put? && PushesPast(start, stop, |ops[0].b|, buflen)) &&
     (CursorMoves(start, stop, buflen, ops[0]);
      NeverPushed(StartAfter(start, stop, buflen, ops[0]), StopAfter(stop, buflen, ops[0]), buflen, ops[1..])))
  }

  lemma {:induction false} CursorMoves<T>(start: nat, stop: nat, buflen: nat, op: Op<T>)
    requires start <= buflen && stop <= buflen && !(op.Put? && PushesPast(start, stop, |op.b|, buflen))
    ensures StartAfter(start, stop, buflen, op) <= buflen && StopAfter(stop, buflen, op) <= buflen
  {
    if op.Put? {
      CursorStays(start, stop, |op.b|, buflen);
    }
  }

  /** A run broken off after `k` operations by a read. */
  function Probe<T>(ops: seq<Op<T>>, k: nat): seq<Op<T>>
    requires k <= |ops|
  {
    ops[..k] + [TakeRest]
  }

  lemma {:induction false} ProbeStep<T>(ops: seq<Op<T>>, k: nat)
    requires k < |ops|
    ensures Probe(ops, k + 1)[0] == ops[0] && Probe(ops, k + 1)[1..] == Probe(ops[1..], k)
  {
  }

  /** A run can be broken off by a read at any point if and only if no write of it pushes the cursor past the end. */
  lemma {:induction false} SafeIffNeverPushed<T>(start: nat, stop: nat, buflen: nat, ops: seq<Op<T>>)
    requires start <= buflen && stop <= buflen
    ensures NeverPushed(start, stop, buflen, ops) <==>
      forall k :: 0 <= k <= |ops| ==> Safe(start, stop, buflen, Probe(ops, k))
    decreases |ops|
  {
    assert Probe(ops, 0) == [TakeRest] && Safe(start, stop, buflen, Probe(ops, 0));
    if ops != [] {
      var op := ops[0];
      if op.Put? && PushesPast(start, stop, |op.b|, buflen) {
        CursorStays(start, stop, |op.b|, buflen);
        ProbeStep(ops, 0);
        assert Probe(ops[1..], 0) == [TakeRest];
        assert !Safe(start, stop, buflen, Probe(ops, 1));
      } else {
        CursorMoves(start, stop, buflen, op);
        var start', stop' := StartAfter(start, stop, buflen, op), StopAfter(stop, buflen, op);
        SafeIffNeverPushed(start', stop', buflen, ops[1..]);
        forall k | 0 <= k < |ops|
          ensures Safe(start, stop, buflen, Probe(ops, k + 1)) <==> Safe(start', stop', buflen, Probe(ops[1..], k))
        {
          ProbeStep(ops, k);
        }
        hide Safe, Probe;
        forall k | 0 <= k <= |ops| && NeverPushed(start', stop', buflen, ops[1..])
          ensures Safe(start, stop, buflen, Probe(ops, k))
        {
          if k > 0 { assert Safe(start', stop', buflen, Probe(ops[1..], k - 1)); }
        }
      }
    }
  }

  /** A run after which the next read would copy a negative number of bytes. */
  method PastTheEnd() returns (out: Option<seq<int>>)
    ensures out.None?
  {
    var c := new CircleBuf<int>(4);
    c.Write([1, 2, 3]);
    var _ := c.Read(2);
    c.Write([4, 5]);
    c.Write([6, 7, 8]);
    assert c.start == 5 && c.stop == 4;
    out := c.Read(1);
  }

  // ----- The buffer's contents in terms of the history -----

  /** Before the first wrap the history is in front of `stop`; after it, the buffer read from `stop`
      round to `stop` is the end of the history. */
  ghost predicate Holds<T>(s: seq<T>, stop: nat, rollover: bool, h: seq<T>)
    requires stop <= |s|
  {
    if rollover then |s| <= |h| && s[stop..] + s[..stop] == Recent(h, |s|) else s[..stop] == h
  }

  lemma {:induction false} Replaced<T>(was: seq<T>, h: seq<T>, b: seq<T>)
    requires |was| <= |b|
    ensures var s := b[|b| - |was|..]; Holds(s, |s|, true, h + b)
  {
    var s := b[|b| - |was|..];
    assert s[|s|..] + s[..|s|] == s;
    RecentOfConcat(h, b, |was|);
  }

  lemma {:induction false} RecentOfConcat<T>(h: seq<T>, b: seq<T>, n: nat)
    ensures n <= |b| ==> Recent(h + b, n) == b[|b| - n..]
    ensures |b| <= n <= |h| + |b| ==> Recent(h + b, n) == h[|h| + |b| - n..] + b
  {
  }

  lemma {:induction false} Appended<T>(was: seq<T>, stop: nat, rollover: bool, h: seq<T>, b: seq<T>)
    requires stop + |b| <= |was| && Holds(was, stop, rollover, h)
    ensures var s := was[..stop] + b + was[stop + |b|..];
            |s| == |was| && Holds(s, stop + |b|, rollover, h + b)
  {
    var s := was[..stop] + b + was[stop + |b|..];
    var n := stop + |b|;
    assert s[..n] == was[..stop] + b && s[n..] == was[n..];
    if rollover {
      RecentOfConcat(h, b, |was|);
      Dropped(h, |was|, |b|);
      assert (was[stop..] + was[..stop])[|b|..] == was[n..] + was[..stop];
      assert s[n..] + s[..n] == was[n..] + was[..stop] + b;
    }
  }

  lemma {:induction false} Dropped<T>(h: seq<T>, n: nat, k: nat)
    requires k <= n <= |h|
    ensures Recent(h, n)[k..] == h[|h| + k - n..]
  {
  }

  /** The buffer read from `stop` round to `stop`, without its first `k` items, if they reach past its end. */
  lemma {:induction false} RotatedDrop<T>(s: seq<T>, stop: nat, k: nat)
    requires stop <= |s| && |s| - stop <= k <= |s|
    ensures (s[stop..] + s[..stop])[k..] == s[k - (|s| - stop)..stop]
  {
  }

  lemma {:induction false} WrappedParts<T>(was: seq<T>, stop: nat, b: seq<T>)
    requires stop <= |was| && |b| < |was| < stop + |b|
    ensures var end := |was| - stop; var n := |b| - end;
            var s := b[end..] + (was[..stop] + b[..end])[n..];
            |s| == |was| && s[n..] + s[..n] == was[n..stop] + b
  {
    var end := |was| - stop;
    var n := |b| - end;
    var s := b[end..] + (was[..stop] + b[..end])[n..];
    assert s[..n] == b[end..];
    assert s[n..] == was[n..stop] + b[..end];
  }

  lemma {:induction false} Wrapped<T>(was: seq<T>, stop: nat, rollover: bool, h: seq<T>, b: seq<T>)
    requires stop <= |was| && |b| < |was| < stop + |b| && Holds(was, stop, rollover, h)
    ensures var end := |was| - stop;
            var s := b[end..] + (was[..stop] + b[..end])[|b| - end..];
            |s| == |was| && Holds(s, |b| - end, true, h + b)
  {
    var n := |b| - (|was| - stop);
    WrappedParts(was, stop, b);
    RecentOfConcat(h, b, |was|);
    if rollover {
      Dropped(h, |was|, |b|);
      RotatedDrop(was, stop, |b|);
    } else {
      assert h[|h| + |b| - |was|..] == was[n..stop];
    }
  }
}
