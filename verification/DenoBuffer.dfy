/**
 * The growable buffer of core/src/denobuffer.ts, a port of Go's bytes.Buffer: a view of
 * `len` bytes into a backing array, read from `off`, written at `len`.
 */
module DenoBuffer {
  import opened Bytes

  const MAX_SIZE := 0x1_0000_0000 - 2

  /** No JavaScript engine allocates a larger array (8 GiB). */
  const MAX_ARRAY := 2 * MAX_SIZE + 1

  datatype Outcome = Done | TooLarge | OutOfRange

  function Min(a: int, b: int): int {
    if a < b then a else b
  }

  lemma SliceOfSlice(s: bytes, a: nat, b: nat, n: nat)
    requires a + n <= b <= |s|
    ensures s[a..b][n..] == s[a + n..b]
  {
  }

  const MIN_READ := 32 * 1024

  /** A reader that hands out what it has in pieces of given sizes, and then ends. */
  class Reader {
    var src: bytes
    var sizes: seq<nat>

    constructor (src: bytes, sizes: seq<nat>)
      ensures this.src == src && this.sizes == sizes
    {
      this.src, this.sizes := src, sizes;
    }

    /** Reads into `buf` from index `at` on; None is the end. */
    method Read(buf: array<byte>, at: nat) returns (n: Option<nat>)
      requires at <= buf.Length
      modifies this, buf
      ensures buf[..at] == old(buf[..at])
      ensures n.None? <==> old(sizes) == []
      ensures n.None? ==> src == old(src) && sizes == [] && buf[..] == old(buf[..])
      ensures n.Some? ==> n.value <= buf.Length - at && n.value <= |old(src)| && sizes == old(sizes)[1..]
      ensures n.Some? ==> buf[at..at + n.value] == old(src)[..n.value] && src == old(src)[n.value..]
    {
      if sizes == [] {
        return None;
      }
      var k := Min(sizes[0], Min(|src|, buf.Length - at));
      forall i | 0 <= i < k {
        buf[at + i] := src[i];
      }
      src, sizes := src[k..], sizes[1..];
      return Some(k);
    }
  }

  class DenoBuffer {
    var data: array<byte>  // the backing ArrayBuffer
    var len: nat           // `_buf` is data[..len]
    var off: nat

    // What was put in, and the bytes moved by slides and by reallocations.
    ghost var put: nat
    ghost var wrote: nat
    ghost var slid: nat
    ghost var copied: nat
    ghost var clamped: bool  // a reallocation was cut off at MAX_SIZE

    ghost predicate Valid()
      reads this
    {
      off <= len <= data.Length <= MAX_ARRAY
    }

    /** The unread bytes. */
    ghost function Contents(): bytes
      requires Valid()
      reads this, data
    {
      data[off..len]
    }

    /** Slides are paid by bytes written before, reallocations by the capacity they leave. */
    ghost predicate Accounted()
      reads this
    {
      && Valid()
      && wrote <= put
      && slid + len <= wrote
      && data.Length <= 5 * put
      && (!clamped ==> copied <= data.Length)
    }

    constructor (ab: bytes)
      requires |ab| <= MAX_ARRAY
      ensures Accounted() && fresh(data) && Contents() == ab
      ensures put == |ab| && slid == 0 && copied == 0 && !clamped
    {
      data := new byte[|ab|](i requires 0 <= i < |ab| => ab[i]);
      len, off := |ab|, 0;
      put, wrote, slid, copied, clamped := |ab|, |ab|, 0, 0, false;
    }

    /** All work of moving bytes is at most six times what was put in. */
    lemma MovedAtMostSixfold()
      requires Accounted() && !clamped
      ensures slid + copied <= 6 * put
    {
    }

    predicate Empty()
      reads this
    {
      len <= off
    }

    function Length(): int
      reads this
    {
      len - off
    }

    method Reslice(l: nat)
      requires l <= data.Length
      modifies this`len
      ensures len == l
    {
      len := l;
    }

    method Reset()
      requires Accounted()
      modifies this`len, this`off
      ensures Accounted() && Contents() == [] && len == off == 0
    {
      Reslice(0);
      off := 0;
    }

    method Truncate(n: int) returns (outcome: Outcome)
      requires Accounted()
      modifies this`len, this`off
      ensures Accounted()
      ensures outcome == if 0 <= n <= old(Length()) then Done else OutOfRange
      ensures Contents() == if outcome.Done? then old(Contents())[..n] else old(Contents())
    {
      if n == 0 {
        Reset();
        return Done;
      }
      if n < 0 || n > Length() {
        return OutOfRange;
      }
      Reslice(off + n);
      assert data[off..len] == old(data[off..len])[..n];
      return Done;
    }

    /** The bytes read are the oldest unread ones; an exhausted buffer starts again at 0. */
    method Read(p: array<byte>) returns (nread: Option<nat>)
      requires Accounted() && p != data
      modifies this`len, this`off, p
      ensures Accounted()
      ensures var c := old(Contents());
              if c == [] then
                Contents() == [] && p[..] == old(p[..]) && nread == if p.Length == 0 then Some(0) else None
              else
                && nread == Some(Min(|c|, p.Length))
                && Contents() == c[nread.value..]
                && p[..nread.value] == c[..nread.value] && p[nread.value..] == old(p[nread.value..])
    {
      if Empty() {
        Reset();
        return if p.Length == 0 then Some(0) else None;
      }
      var n := Min(Length(), p.Length);
      forall k | 0 <= k < n {
        p[k] := data[off + k];
      }
      ghost var c := data[off..len];
      assert forall k :: 0 <= k < n ==> p[k] == c[k];
      assert p[..n] == c[..n] && p[n..] == old(p[n..]);
      SliceOfSlice(data[..], off, len, n);
      off := off + n;
      return Some(n);
    }

    method ReadByte() returns (b: Option<byte>)
      requires Accounted()
      modifies this`len, this`off
      ensures Accounted()
      ensures var c := old(Contents());
              if c == [] then b == None && Contents() == [] else b == Some(c[0]) && Contents() == c[1..]
    {
      var a := new byte[1](_ => 0);
      var n := Read(a);
      if n.Some? && n.value > 0 {
        assert n.value == 1 && a[..1][0] == a[0];
        assert old(Contents())[..1][0] == old(Contents())[0];
        return Some(a[0]);
      }
      return None;
    }

    method TryGrowByReslice(n: nat) returns (i: int)
      requires Valid()
      modifies this`len
      ensures if n <= data.Length - old(len) then i == old(len) && len == old(len) + n else i == -1 && len == old(len)
    {
      var l := len;
      if n <= data.Length - l {
        Reslice(l + n);
        return l;
      }
      return -1;
    }

    /** Moves the unread bytes to the front of the same array. */
    method Slide()
      requires Valid()
      modifies this`off, this`slid, data
      ensures off == 0 && slid == old(slid) + old(Length())
      ensures data[..old(Length())] == old(Contents())
    {
      var m := Length();
      forall k | 0 <= k < m {
        data[k] := data[off + k];
      }
      slid := slid + m;
      off := 0;
    }

    /** Moves the unread bytes to the front of a new array with room for `n` more. */
    method Reallocate(n: nat)
      requires Valid() && data.Length + n <= MAX_SIZE && data.Length / 2 < Length() + n
      modifies this`data, this`off, this`copied, this`clamped
      ensures fresh(data) && off == 0 && copied == old(copied) + old(Length())
      ensures data.Length == Min(2 * old(data.Length) + n, MAX_SIZE)
      ensures data.Length <= 5 * (old(Length()) + n) - 2
      ensures clamped == (old(clamped) || 2 * old(data.Length) + n > MAX_SIZE)
      ensures old(Length()) + n <= data.Length && data[..old(Length())] == old(Contents())
    {
      var m, c := Length(), data.Length;
      var buf := new byte[Min(2 * c + n, MAX_SIZE)](_ => 0);
      forall k | 0 <= k < m {
        buf[k] := data[off + k];
      }
      copied := copied + m;
      clamped := clamped || 2 * c + n > MAX_SIZE;
      data := buf;
      off := 0;
    }

    /**
     * Makes room for `n` bytes at index `i`, by reslicing over stale bytes, by sliding the
     * unread bytes down or by reallocating. Nothing is lost when the result would be too large.
     */
    method GrowBy(n: nat) returns (i: nat, outcome: Outcome)
      requires Accounted()
      modifies this`data, this`len, this`off, this`slid, this`copied, this`clamped, data
      ensures data == old(data) || fresh(data)
      ensures outcome.Done? || outcome.TooLarge?
      ensures outcome.TooLarge? ==> Accounted() && Contents() == old(Contents()) && old(data.Length) + n > MAX_SIZE
      ensures outcome.Done? ==>
        && off <= i && i + n == len && Valid()
        && data[off..i] == old(Contents())
        && slid + i <= wrote
        && data.Length <= 5 * (put + n)
        && (!clamped ==> copied <= data.Length)
      ensures old(clamped) ==> clamped
      ensures old(off) == 0 ==> off == 0
      ensures fresh(data) ==> data.Length <= 5 * (old(Length()) + n) - 2
    {
      var m := Length();
      if m == 0 && off != 0 {
        Reset();
      }
      var at := TryGrowByReslice(n);
      if at >= 0 {
        return at, Done;
      }
      i, outcome := MakeRoom(n);
    }

    /** The array is too short: slides the unread bytes down or moves them to a new array. */
    method MakeRoom(n: nat) returns (i: nat, outcome: Outcome)
      requires Accounted() && data.Length - len < n
      modifies this`data, this`len, this`off, this`slid, this`copied, this`clamped, data
      ensures data == old(data) || fresh(data)
      ensures outcome.Done? || outcome.TooLarge?
      ensures outcome.TooLarge? ==> Accounted() && Contents() == old(Contents()) && old(data.Length) + n > MAX_SIZE
      ensures outcome.TooLarge? ==> off == old(off)
      ensures outcome.Done? ==>
        && off == 0 && i + n == len && Valid()
        && data[off..i] == old(Contents())
        && slid + i <= wrote
        && data.Length <= 5 * (put + n)
        && (!clamped ==> copied <= data.Length)
      ensures old(clamped) ==> clamped
      ensures fresh(data) ==> data.Length <= 5 * (old(Length()) + n) - 2
    {
      var m, c := Length(), data.Length;
      if n <= c / 2 - m {
        assert 2 * m <= len;  // more than half of the array was read: the slide is paid for
        Slide();
      } else if c + n > MAX_SIZE {
        return 0, TooLarge;
      } else {
        Reallocate(n);
      }
      Reslice(Min(m + n, MAX_SIZE));
      return m, Done;
    }

    method Write(p: bytes) returns (written: nat, outcome: Outcome)
      requires Accounted()
      modifies this, data
      ensures Accounted()
      ensures data == old(data) || fresh(data)
      ensures if outcome.Done? then Contents() == old(Contents()) + p && written == |p|
              else outcome.TooLarge? && Contents() == old(Contents()) && old(data.Length) + |p| > MAX_SIZE
      ensures put == old(put) + if outcome.Done? then |p| else 0
      ensures fresh(data) ==> data.Length <= 5 * (old(Length()) + |p|) - 2
      ensures old(clamped) ==> clamped
      ensures old(off) == 0 ==> off == 0
    {
      ghost var put0, wrote0 := put, wrote;
      var m;
      m, outcome := GrowBy(|p|);
      if outcome.TooLarge? {
        return 0, TooLarge;
      }
      Fill(m, p);
      put, wrote := put + |p|, wrote + |p|;
      return |p|, Done;
    }

    /** Copies `p` to the end of the view, from index `m` on. */
    method Fill(m: nat, p: bytes)
      requires Valid() && off <= m && m + |p| == len
      modifies data
      ensures Contents() == old(data[off..m]) + p
    {
      forall k | 0 <= k < |p| {
        data[m + k] := p[k];
      }
      assert data[off..m] == old(data[off..m]) && data[m..len] == p;
      assert data[off..len] == data[off..m] + data[m..len];
    }

    method Grow(n: int) returns (outcome: Outcome)
      requires Accounted()
      modifies this, data
      ensures Accounted()
      ensures data == old(data) || fresh(data)
      ensures Contents() == old(Contents())
      ensures n < 0 <==> outcome.OutOfRange?
      ensures outcome.TooLarge? ==> old(data.Length) + n > MAX_SIZE
      ensures outcome.Done? ==> len + n <= data.Length
      ensures put == old(put) + if outcome.Done? then n else 0
      ensures fresh(data) ==> data.Length <= 5 * (old(Length()) + n) - 2
      ensures old(clamped) ==> clamped
    {
      if n < 0 {
        return OutOfRange;
      }
      var m;
      m, outcome := GrowBy(n);
      if outcome.Done? {
        Reslice(m);
        put := put + n;
      }
    }

    /**
     * One pass of `readFrom` that reads straight into the backing array. It appends what it read
     * exactly when `off` is 0; otherwise the number of unread bytes comes out short by `off`.
     */
    method ReadDirect(r: Reader) returns (nread: Option<nat>)
      requires Accounted()
      modifies this`len, this`put, this`wrote, data, r
      ensures nread.None? <==> old(r.sizes) == []
      ensures nread.None? ==> Accounted() && r.sizes == [] && r.src == old(r.src) && Contents() == old(Contents())
      ensures nread.Some? ==> r.sizes == old(r.sizes)[1..] && Length() == old(Length()) + nread.value - off
      ensures nread.Some? && off == 0 ==> Accounted() && Contents() + r.src == old(Contents()) + old(r.src)
    {
      ghost var l, queue := len, data[..len];
      nread := r.Read(data, Length());
      if nread.Some? {
        Reslice(Length() + nread.value);
        put, wrote := put + nread.value, wrote + nread.value;
        if off == 0 {
          assert data[..len] == queue + data[l..len];
        }
      } else {
        assert data[off..len] == data[..][off..len];
      }
    }

    /** One pass that reads into `tmp`, and writes. */
    method ReadVia(r: Reader, tmp: array<byte>) returns (nread: Option<nat>, outcome: Outcome)
      requires Accounted() && off == 0 && tmp != data
      modifies this, data, tmp, r
      ensures Accounted() && (data == old(data) || fresh(data)) && off == 0
      ensures outcome.Done? ==> Contents() + r.src == old(Contents()) + old(r.src)
      ensures outcome.Done? || outcome.TooLarge?
      ensures nread.None? <==> old(r.sizes) == []
      ensures nread.None? ==> outcome.Done? && r.sizes == [] && Contents() == old(Contents())
      ensures nread.Some? ==> r.sizes == old(r.sizes)[1..]
      ensures nread.Some? && outcome.Done? ==> |Contents()| == |old(Contents())| + nread.value
    {
      outcome := Done;
      nread := r.Read(tmp, 0);
      if nread.Some? {
        var written;
        written, outcome := Write(tmp[..nread.value]);
      }
    }

    /** Appends everything the reader hands out. Callers use it only while nothing was read, `off` being 0. */
    method ReadFrom(r: Reader) returns (n: nat, outcome: Outcome)
      requires Accounted() && off == 0
      modifies this, data, r
      ensures Accounted()
      ensures outcome.Done? ==> r.sizes == [] && Contents() + r.src == old(Contents()) + old(r.src)
      ensures outcome.Done? ==> n == |Contents()| - |old(Contents())|
      ensures outcome.Done? || outcome.TooLarge?
    {
      n, outcome := 0, Done;
      var tmp := new byte[MIN_READ](_ => 0);
      while true
        invariant Accounted() && off == 0 && tmp != data && (data == old(data) || fresh(data))
        invariant Contents() + r.src == old(Contents()) + old(r.src)
        invariant n == |Contents()| - |old(Contents())| && outcome.Done?
        decreases |r.sizes|
      {
        var shouldGrow := data.Length - Length() < MIN_READ;
        var nread;
        if shouldGrow {
          nread, outcome := ReadVia(r, tmp);
          if outcome.TooLarge? {
            return;
          }
        } else {
          nread := ReadDirect(r);
        }
        if nread.None? {
          return;
        }
        n := n + nread.value;
      }
    }
  }

  // ----- whole runs against a plain byte queue

  datatype Call = WriteCall(p: bytes) | ReadCall(room: nat) | ReadByteCall | TruncateCall(n: int) | GrowCall(n: int) | ResetCall

  /** What a plain byte queue holds after a call. */
  function After(queue: bytes, call: Call): bytes {
    match call
    case WriteCall(p) => queue + p
    case ReadCall(room) => queue[Min(|queue|, room)..]
    case ReadByteCall => queue[Min(|queue|, 1)..]
    case TruncateCall(n) => if 0 <= n <= |queue| then queue[..n] else queue
    case GrowCall(_) => queue
    case ResetCall => []
  }

  /** What it hands out. */
  function Handed(queue: bytes, call: Call): bytes {
    match call
    case ReadCall(room) => queue[..Min(|queue|, room)]
    case ReadByteCall => queue[..Min(|queue|, 1)]
    case _ => []
  }

  function AfterAll(queue: bytes, calls: seq<Call>): bytes {
    if calls == [] then queue else After(AfterAll(queue, calls[..|calls| - 1]), calls[|calls| - 1])
  }

  function HandedAll(queue: bytes, calls: seq<Call>): bytes {
    if calls == [] then [] else
      var n := |calls| - 1;
      HandedAll(queue, calls[..n]) + Handed(AfterAll(queue, calls[..n]), calls[n])
  }

  method PerformRead(b: DenoBuffer, room: nat) returns (handed: bytes)
    requires b.Accounted()
    modifies b`len, b`off
    ensures b.Accounted()
    ensures b.Contents() == After(old(b.Contents()), ReadCall(room)) && handed == Handed(old(b.Contents()), ReadCall(room))
  {
    handed := [];
    var p := new byte[room](_ => 0);
    var n := b.Read(p);
    if n.Some? {
      handed := p[..n.value];
    }
  }

  method PerformReadByte(b: DenoBuffer) returns (handed: bytes)
    requires b.Accounted()
    modifies b`len, b`off
    ensures b.Accounted()
    ensures b.Contents() == After(old(b.Contents()), ReadByteCall) && handed == Handed(old(b.Contents()), ReadByteCall)
  {
    handed := [];
    var x := b.ReadByte();
    if x.Some? {
      handed := [x.value];
    }
  }

  method Perform(b: DenoBuffer, call: Call) returns (handed: bytes, outcome: Outcome)
    requires b.Accounted()
    modifies b, b.data
    ensures b.Accounted() && (b.data == old(b.data) || fresh(b.data))
    ensures !outcome.TooLarge? ==> b.Contents() == After(old(b.Contents()), call)
    ensures !outcome.TooLarge? ==> handed == Handed(old(b.Contents()), call)
    ensures old(b.clamped) ==> b.clamped
  {
    handed, outcome := [], Done;
    match call {
      case WriteCall(p) =>
        var n;
        n, outcome := b.Write(p);
      case ReadCall(room) =>
        handed := PerformRead(b, room);
      case ReadByteCall =>
        handed := PerformReadByte(b);
      case TruncateCall(n) =>
        outcome := b.Truncate(n);
      case GrowCall(n) =>
        outcome := b.Grow(n);
      case ResetCall =>
        b.Reset();
    }
  }

  /**
   * Any run of calls hands out and keeps exactly the bytes of a plain queue, through slides,
   * stale bytes and reallocations, and moves at most six bytes for each byte put in.
   */
  method PerformAll(b: DenoBuffer, calls: seq<Call>) returns (handed: bytes, tooLarge: bool)
    requires b.Accounted()
    modifies b, b.data
    ensures b.Accounted()
    ensures !tooLarge ==> b.Contents() == AfterAll(old(b.Contents()), calls)
    ensures !tooLarge ==> handed == HandedAll(old(b.Contents()), calls)
    ensures !b.clamped ==> b.slid + b.copied <= 6 * b.put
  {
    handed, tooLarge := [], false;
    ghost var queue := b.Contents();
    var i := 0;
    while i < |calls| && !tooLarge
      invariant 0 <= i <= |calls|
      invariant b.Accounted() && (b.data == old(b.data) || fresh(b.data))
      invariant !tooLarge ==> b.Contents() == AfterAll(queue, calls[..i])
      invariant !tooLarge ==> handed == HandedAll(queue, calls[..i])
    {
      var more, outcome := Perform(b, calls[i]);
      assert calls[..i + 1][..i] == calls[..i];
      handed := handed + more;
      tooLarge := outcome.TooLarge?;
      i := i + 1;
    }
    assert calls[..|calls|] == calls;
    if !b.clamped {
      b.MovedAtMostSixfold();
    }
  }
}
