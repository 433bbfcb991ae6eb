/** Fixed-size buffers with a moving window, and the queues of them that stand for byte streams. */
module MultiBuffers {
  import opened Bytes

  const SIZE: nat := 8192

  /** What a buffer shows of its storage: where the window starts and the bytes in it. */
  datatype Span = Span(start: nat, bytes: seq<byte>)

  type Window = w: Span | w.start + |w.bytes| <= SIZE witness Span(0, [])

  function Advanced(w: Window, n: nat): Window
  {
    if n >= |w.bytes| then Span(0, []) else Span(w.start + n, w.bytes[n..])
  }

  class Buffer {
    const data: array<byte>
    var start: nat
    var end: nat

    predicate Valid()
      reads this
    {
      data.Length == SIZE && start <= end <= SIZE
    }

    ghost function View(): Window
      requires Valid()
      reads this, data
    {
      Span(start, data[start..end])
    }

    constructor ()
      ensures Valid() && fresh(data) && View() == Span(0, [])
    {
      data := new byte[SIZE];
      start, end := 0, 0;
    }

    /** `from_slice` keeps what fits. */
    constructor FromSlice(bytes: seq<byte>)
      ensures Valid() && fresh(data) && View() == Span(0, bytes[..Min(|bytes|, SIZE)])
    {
      data := new byte[SIZE];
      start, end := 0, Min(|bytes|, SIZE);
      new;
      forall i | 0 <= i < end { data[i] := bytes[i]; }
    }

    /** `extend` followed by filling the new part; `extend` panics without the room. */
    method Extend(bytes: seq<byte>)
      requires Valid() && end + |bytes| <= SIZE
      modifies this, data
      ensures Valid() && start == old(start) && View().bytes == old(View()).bytes + bytes
    {
      forall i | 0 <= i < |bytes| { data[end + i] := bytes[i]; }
      end := end + |bytes|;
    }

    method Advance(n: nat)
      requires Valid()
      modifies this
      ensures Valid() && View() == Advanced(old(View()), n)
    {
      var k := Min(n, end - start);
      start := start + k;
      if start == end {
        start, end := 0, 0;
      }
    }

    /** `io::Write::write`: `None` is the error of a buffer whose end has reached the capacity. */
    method Write(bytes: seq<byte>) returns (n: Option<nat>)
      requires Valid()
      modifies this, data
      ensures Valid() && start == old(start)
      ensures n == if old(end) == SIZE then None else Some(Min(|bytes|, SIZE - old(end)))
      ensures View().bytes == old(View()).bytes + if n == None then [] else bytes[..n.value]
    {
      if end == SIZE { return None; }
      var k := Min(|bytes|, SIZE - end);
      Extend(bytes[..k]);
      return Some(k);
    }

    /** `io::Read::read` into a destination of `room` bytes. */
    method Read(room: nat) returns (got: seq<byte>)
      requires Valid()
      modifies this
      ensures Valid() && |got| == Min(room, |old(View()).bytes|) && got + View().bytes == old(View()).bytes
    {
      got := [];
      if start == end { return; }
      var n := Min(room, end - start);
      got := data[start..start + n];
      start := start + n;
      if start == end {
        start, end := 0, 0;
      }
    }
  }

  /** The flat byte sequence a list of buffers stands for. */
  function Flat(bs: seq<Window>): seq<byte>
  {
    if bs == [] then [] else bs[0].bytes + Flat(bs[1..])
  }

  lemma {:induction false} FlatAppend(a: seq<Window>, b: seq<Window>)
    ensures Flat(a + b) == Flat(a) + Flat(b)
  {
    if a == [] {
      assert a + b == b;
    } else {
      FlatAppend(a[1..], b);
      assert (a + b)[0] == a[0] && (a + b)[1..] == a[1..] + b;
      Assoc(a[0].bytes, Flat(a[1..]), Flat(b));
    }
  }

  lemma FlatSnoc(a: seq<Window>, w: Window)
    ensures Flat(a + [w]) == Flat(a) + w.bytes
  {
    FlatAppend(a, [w]);
    assert Flat([w]) == w.bytes + Flat([w][1..]) == w.bytes;
  }

  class MultiBuffer {
    var bufs: seq<Window>
    var totalLen: nat

    ghost predicate Valid()
      reads this
    {
      totalLen == |Flat(bufs)|
    }

    constructor ()
      ensures bufs == [] && totalLen == 0
    {
      bufs, totalLen := [], 0;
    }

    method PushBack(buf: Window)
      requires Valid()
      modifies this
      ensures Valid() && bufs == old(bufs) + [buf] && Flat(bufs) == old(Flat(bufs)) + buf.bytes
    {
      FlatSnoc(bufs, buf);
      totalLen := totalLen + |buf.bytes|;
      bufs := bufs + [buf];
    }

    method PushFront(buf: Window)
      requires Valid()
      modifies this
      ensures Valid() && bufs == [buf] + old(bufs) && Flat(bufs) == buf.bytes + old(Flat(bufs))
    {
      totalLen := totalLen + |buf.bytes|;
      assert ([buf] + bufs)[1..] == bufs;
      bufs := [buf] + bufs;
    }

    method PopFront() returns (buf: Option<Window>)
      requires Valid()
      modifies this
      ensures Valid() && (buf == None <==> old(bufs) == [])
      ensures buf == None ==> bufs == []
      ensures buf.Some? ==> [buf.value] + bufs == old(bufs) && buf.value.bytes + Flat(bufs) == old(Flat(bufs))
    {
      if bufs == [] { return None; }
      buf := Some(bufs[0]);
      totalLen := totalLen - |bufs[0].bytes|;
      bufs := bufs[1..];
    }

    /**
     * Moves every buffer of `other` over. The count of `other` is not reset: it goes on reporting
     * the bytes that have left, and is right afterwards only if there were none.
     */
    method Append(other: MultiBuffer)
      requires Valid() && other.Valid() && other != this
      modifies this, other
      ensures Valid() && bufs == old(bufs) + old(other.bufs)
      ensures Flat(bufs) == old(Flat(bufs)) + old(Flat(other.bufs))
      ensures other.bufs == [] && other.totalLen == old(other.totalLen)
      ensures other.Valid() <==> old(Flat(other.bufs)) == []
    {
      while other.bufs != []
        invariant Valid() && other.totalLen == old(other.totalLen)
        invariant bufs + other.bufs == old(bufs) + old(other.bufs)
        decreases |other.bufs|
      {
        var buf := other.bufs[0];
        other.bufs := other.bufs[1..];
        PushBack(buf);
      }
      FlatAppend(old(bufs), old(other.bufs));
    }

    /** The first `n` bytes, or all there are, move into a queue of their own. */
    method CutFront(n: nat) returns (result: MultiBuffer)
      requires Valid()
      modifies this
      ensures fresh(result) && Valid() && result.Valid()
      ensures result.totalLen == Min(n, old(totalLen))
      ensures Flat(result.bufs) + Flat(bufs) == old(Flat(bufs))
    {
      result := new MultiBuffer();
      var remaining := n;
      while remaining > 0
        invariant Valid() && result.Valid() && fresh(result)
        invariant Flat(result.bufs) + Flat(bufs) == old(Flat(bufs))
        invariant 0 <= remaining && result.totalLen + remaining == n && result.totalLen + totalLen == old(totalLen)
        decreases remaining, |bufs|
      {
        if bufs == [] { break; }
        var front := bufs[0];
        ghost var before, rest := Flat(result.bufs), Flat(bufs[1..]);
        var len := |front.bytes|;
        if len <= remaining {
          remaining := remaining - len;
          totalLen := totalLen - len;
          bufs := bufs[1..];
          result.PushBack(front);
          Assoc(before, front.bytes, rest);
        } else {
          var take := remaining;
          var newBuf: Window := Span(0, front.bytes[..take]);
          CutInside(before, front.bytes, take, rest);
          bufs := [Advanced(front, take)] + bufs[1..];
          totalLen := totalLen - take;
          remaining := 0;
          result.PushBack(newBuf);
        }
      }
    }

    /** The first loop of `split_off`: how many whole buffers stay within `at` bytes. */
    method CountWithin(at: nat) returns (idx: nat)
      ensures idx <= |bufs| && |Flat(bufs[..idx])| <= at
      ensures forall k :: idx < k <= |bufs| ==> |Flat(bufs[..k])| > at
    {
      var count := 0;
      idx := 0;
      while idx < |bufs|
        invariant 0 <= idx <= |bufs|
        invariant count == |Flat(bufs[..idx])| <= at
      {
        FlatSnoc(bufs[..idx], bufs[idx]);
        assert bufs[..idx + 1] == bufs[..idx] + [bufs[idx]];
        if count + |bufs[idx].bytes| > at {
          LongerRunsHoldMore(bufs, idx + 1);
          break;
        }
        count := count + |bufs[idx].bytes|;
        idx := idx + 1;
      }
    }

    /** `split_off` keeps the longest run of whole buffers within `at` bytes and gives up the rest. */
    method SplitOff(at: nat) returns (result: MultiBuffer)
      requires Valid()
      modifies this
      ensures fresh(result) && Valid() && result.Valid()
      ensures bufs + result.bufs == old(bufs) && Flat(bufs) + Flat(result.bufs) == old(Flat(bufs))
      ensures totalLen <= at
      ensures forall k :: |bufs| < k <= |old(bufs)| ==> |Flat(old(bufs)[..k])| > at
    {
      result := new MultiBuffer();
      var idx := CountWithin(at);
      ghost var all := bufs;
      while |bufs| > idx
        invariant idx <= |bufs| <= |all| && Valid() && result.Valid() && fresh(result)
        invariant bufs == all[..|bufs|] && result.bufs == all[|bufs|..]
      {
        var k := |bufs| - 1;
        var buf := bufs[k];
        DropBack(all, k);
        FlatSnoc(bufs[..k], buf);
        bufs := bufs[..k];
        totalLen := totalLen - |buf.bytes|;
        result.PushFront(buf);
      }
      TakeDrop(all, |bufs|);
      FlatAppend(bufs, result.bufs);
    }

    /** `copy_bytes` gives the first bytes, as many as the destination takes, and changes nothing. */
    method CopyBytes(data: array<byte>) returns (copied: nat)
      requires Valid()
      modifies data
      ensures copied == Min(data.Length, totalLen)
      ensures data[..] == Flat(bufs)[..copied] + old(data[..])[copied..]
    {
      copied := 0;
      var bs := bufs;
      ghost var was, flat := data[..], Flat(bs);
      assert was == flat[..0] + was[0..];
      for i := 0 to |bs|
        invariant copied == Min(data.Length, |Flat(bs[..i])|) <= |flat|
        invariant data[..] == flat[..copied] + was[copied..]
      {
        if copied >= data.Length { return; }
        FlatAt(bs, i);
        copied := Fill(data, copied, bs[i].bytes, flat, was);
      }
      assert bs[..|bs|] == bs;
    }

    /**
     * `read_into` takes the least of the whole destination and the next buffer, not of the room that
     * is left; `None` is the panic of the slice that then runs over the end.
     */
    method ReadInto(data: array<byte>) returns (copied: Option<nat>)
      requires Valid()
      modifies this, data
      ensures copied.Some? <==> Fits(old(bufs), data.Length)
      ensures copied.Some? ==>
        && Valid() && copied.value == Min(data.Length, old(totalLen))
        && data[..] == old(Flat(bufs))[..copied.value] + old(data[..])[copied.value..]
        && Flat(bufs) == old(Flat(bufs))[copied.value..]
    {
      var room, done := data.Length, 0;
      ghost var was, flat := data[..], Flat(bufs);
      assert was == flat[..0] + was[0..];
      while done < room
        invariant 0 <= done <= room && done + totalLen == |flat|
        invariant flat[done..] == Flat(bufs)
        invariant data[..] == flat[..done] + was[done..]
        invariant Fits(old(bufs), room) <==> if done == 0 then Fits(bufs, room) else Lands(bufs, room - done)
        decreases |bufs|, room - done
      {
        if bufs == [] { break; }
        var bytes := bufs[0].bytes;
        var n := Min(room, |bytes|);
        if done + n > room { return None; }
        ReadStep(flat, done, bytes, n, Flat(bufs[1..]));
        bufs := if n == |bytes| then bufs[1..] else [Advanced(bufs[0], n)] + bufs[1..];
        totalLen := totalLen - n;
        done := Fill(data, done, bytes[..n], flat, was);
      }
      copied := Some(done);
    }
  }

  lemma ReadStep(flat: seq<byte>, done: nat, bytes: seq<byte>, n: nat, rest: seq<byte>)
    requires done <= |flat| && flat[done..] == bytes + rest && n <= |bytes|
    ensures Stands(flat, done, bytes[..n]) && flat[done + n..] == bytes[n..] + rest
  {
    assert |flat[done..]| == |flat| - done;
    assert flat[done..][..n] == flat[done..done + n];
    assert flat[done..][n..] == flat[done + n..];
  }

  /** `room` bytes are a whole number of buffers, or more than there are. */
  predicate Lands(bs: seq<Window>, room: nat)
  {
    room == 0 || bs == [] || (|bs[0].bytes| <= room && Lands(bs[1..], room - |bs[0].bytes|))
  }

  function FirstLength(bs: seq<Window>): nat
  {
    if bs == [] then 0 else if bs[0].bytes != [] then |bs[0].bytes| else FirstLength(bs[1..])
  }

  /** When `read_into` returns: the destination ends at a buffer boundary, inside the first bytes, or past all. */
  predicate Fits(bs: seq<Window>, room: nat)
  {
    Lands(bs, room) || room <= FirstLength(bs)
  }

  lemma {:induction false} LandsAtBoundary(bs: seq<Window>, room: nat)
    ensures Lands(bs, room) <==> room >= |Flat(bs)| || exists k :: 0 <= k <= |bs| && |Flat(bs[..k])| == room
  {
    if room == 0 {
      assert |Flat(bs[..0])| == 0;
    } else if bs != [] {
      var rest, less := bs[1..], room - |bs[0].bytes|;
      forall k | 1 <= k <= |bs| ensures |Flat(bs[..k])| == |bs[0].bytes| + |Flat(rest[..k - 1])| {
        assert bs[..k][1..] == rest[..k - 1];
      }
      if less >= 0 {
        LandsAtBoundary(rest, less);
        if j :| 0 <= j <= |rest| && |Flat(rest[..j])| == less {
          assert |Flat(bs[..j + 1])| == room;
        }
        if k :| 0 <= k <= |bs| && |Flat(bs[..k])| == room {
          assert |Flat(rest[..k - 1])| == less;
        }
      }
    }
  }

  /** The reads that panic: those that end short of the whole, past the first bytes and inside a buffer. */
  lemma ReadPanicsIff(bs: seq<Window>, room: nat)
    ensures !Fits(bs, room) <==>
      && FirstLength(bs) < room < |Flat(bs)|
      && forall k :: 0 <= k <= |bs| ==> |Flat(bs[..k])| != room
  {
    LandsAtBoundary(bs, room);
  }

  /** Four bytes cannot be read from a buffer of three followed by one of two. */
  lemma FourOfThreeAndTwoPanics()
    ensures !Fits([Span(0, [1, 2, 3]), Span(0, [4, 5])], 4)
  {
    var bs: seq<Window> := [Span(0, [1, 2, 3]), Span(0, [4, 5])];
    assert bs[1..] == [Span(0, [4, 5])];
  }

  /** One turn of `copy_bytes`: as much of `bytes` as there is room for goes to index `at`. */
  method Fill(data: array<byte>, at: nat, bytes: seq<byte>, ghost flat: seq<byte>, ghost was: seq<byte>)
    returns (end: nat)
    requires at <= data.Length == |was| && Stands(flat, at, bytes)
    requires data[..] == flat[..at] + was[at..]
    modifies data
    ensures end == Min(data.Length, at + |bytes|)
    ensures data[..] == flat[..end] + was[end..]
  {
    var n := Min(data.Length - at, |bytes|);
    CopyStep(flat, was, at, bytes, n);
    ghost var now := data[..];
    forall k | 0 <= k < n { data[at + k] := bytes[k]; }
    assert data[..] == now[..at] + bytes[..n] + now[at + n..];
    end := at + n;
  }

  lemma CopyStep(flat: seq<byte>, was: seq<byte>, at: nat, bytes: seq<byte>, n: nat)
    requires Stands(flat, at, bytes) && n <= |bytes| && at + n <= |was|
    ensures var now := flat[..at] + was[at..];
      now[..at] + bytes[..n] + now[at + n..] == flat[..at + n] + was[at + n..]
  {
    assert flat[at..at + |bytes|][..n] == flat[at..at + n];
    assert flat[..at + n] == flat[..at] + flat[at..at + n];
  }

  lemma FlatAt(bs: seq<Window>, i: nat)
    requires i < |bs|
    ensures |Flat(bs[..i + 1])| == |Flat(bs[..i])| + |bs[i].bytes|
    ensures Stands(Flat(bs), |Flat(bs[..i])|, bs[i].bytes)
  {
    FlatSnoc(bs[..i], bs[i]);
    assert bs[..i + 1] == bs[..i] + [bs[i]];
    FlatAppend(bs[..i + 1], bs[i + 1..]);
    assert bs == bs[..i + 1] + bs[i + 1..];
    StandsIn(Flat(bs[..i]), bs[i].bytes, Flat(bs[i + 1..]));
  }

  lemma CutInside(before: seq<byte>, bytes: seq<byte>, take: nat, rest: seq<byte>)
    requires take <= |bytes|
    ensures before + (bytes + rest) == before + bytes[..take] + (bytes[take..] + rest)
  {
  }

  lemma {:induction false} LongerRunsHoldMore(bs: seq<Window>, i: nat)
    requires i <= |bs|
    ensures forall k :: i <= k <= |bs| ==> |Flat(bs[..i])| <= |Flat(bs[..k])|
  {
    forall k | i <= k <= |bs| ensures |Flat(bs[..i])| <= |Flat(bs[..k])| {
      assert bs[..k] == bs[..i] + bs[i..k];
      FlatAppend(bs[..i], bs[i..k]);
    }
  }
}
