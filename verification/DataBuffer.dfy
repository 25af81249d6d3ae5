/** The list of byte arrays that outgoing data is gathered in (core/src/databuffer.ts). */
module DataBuffer {
  import opened Bytes

  lemma {:induction false} FlattenConcat(a: seq<bytes>, b: seq<bytes>)
    ensures Flatten(a + b) == Flatten(a) + Flatten(b)
  {
    if a == [] {
      assert a + b == b;
    } else {
      FlattenConcat(a[1..], b);
      assert (a + b)[0] == a[0] && (a + b)[1..] == a[1..] + b;
      var h, t := a[0], Flatten(a[1..]);
      assert h + (t + Flatten(b)) == (h + t) + Flatten(b);
    }
  }

  lemma FlattenOne(a: bytes)
    ensures Flatten([a]) == a
  {
    assert [a][1..] == [];
  }

  class DataBuffer {
    var buffers: seq<bytes>
    var byteLength: int

    ghost predicate Valid()
      reads this
    {
      byteLength == |Contents()|
    }

    /** The bytes held, in order. */
    ghost function Contents(): bytes
      reads this
    {
      Flatten(buffers)
    }

    constructor ()
      ensures Valid() && buffers == [] && Contents() == []
    {
      buffers := [];
      byteLength := 0;
    }

    method Reset()
      modifies this
      ensures Valid() && buffers == [] && Contents() == []
    {
      buffers := [];
      byteLength := 0;
    }

    function Size(): (n: int)
      requires Valid()
      reads this
      ensures n == |Contents()|
    {
      byteLength
    }

    function Length(): (n: nat)
      reads this
      ensures n == 0 ==> Contents() == []
    {
      |buffers|
    }

    /** Copies the buffers one after another into one new array. */
    method Concatenated() returns (v: array<byte>)
      requires Valid()
      ensures fresh(v) && v[..] == Contents()
    {
      v := new byte[byteLength](_ => 0);
      var index, i := 0, 0;
      FlattenConcat(buffers, []);
      assert buffers[..0] == [] && v[..0] == [];
      while i < |buffers|
        invariant 0 <= i <= |buffers|
        invariant index == |Flatten(buffers[..i])| <= v.Length
        invariant v[..index] == Flatten(buffers[..i])
      {
        var b := buffers[i];
        FlattenConcat(buffers[..i], [b]);
        FlattenOne(b);
        assert buffers[..i] + [b] == buffers[..i + 1];
        FlattenConcat(buffers[..i + 1], buffers[i + 1..]);
        assert buffers[..i + 1] + buffers[i + 1..] == buffers;
        CopyInto(v, index, b);
        index := index + |b|;
        i := i + 1;
      }
      assert buffers[..i] == buffers;
      assert v[..index] == v[..];
    }

    /** `v.set(b, index)` */
    static method CopyInto(v: array<byte>, index: nat, b: bytes)
      requires index + |b| <= v.Length
      modifies v
      ensures v[..index + |b|] == old(v[..index]) + b
    {
      var k := 0;
      while k < |b|
        invariant 0 <= k <= |b|
        invariant v[..index] == old(v[..index])
        invariant v[index..index + k] == b[..k]
      {
        v[index + k] := b[k];
        k := k + 1;
      }
      assert v[..index + |b|] == v[..index] + v[index..index + |b|];
    }

    /** Joins the buffers into one; the bytes do not change. */
    method Pack()
      requires Valid()
      modifies this
      ensures Valid() && Contents() == old(Contents())
      ensures |buffers| == if |old(buffers)| > 1 then 1 else |old(buffers)|
      ensures |buffers| == 1 ==> buffers[0] == Contents()
    {
      if |buffers| > 1 {
        var v := Concatenated();
        buffers := [v[..]];
      }
      if |buffers| == 1 {
        FlattenOne(buffers[0]);
        assert buffers == [buffers[0]];
      }
    }

    method Shift() returns (a: bytes)
      requires Valid()
      modifies this
      ensures Valid() && a + Contents() == old(Contents())
      ensures |buffers| == if |old(buffers)| == 0 then 0 else |old(buffers)| - 1
    {
      a := [];
      if |buffers| > 0 {
        a := buffers[0];
        buffers := buffers[1..];
        byteLength := byteLength - |a|;
      }
    }

    /** Takes the first n bytes, or all of them; what is left stays as one buffer, or none. */
    method Drain(n: Option<nat>) returns (d: bytes)
      requires Valid()
      modifies this
      ensures Valid() && d + Contents() == old(Contents())
      ensures |d| == if n.None? || n.value > |old(Contents())| then |old(Contents())| else n.value
      ensures (buffers == []) <==> (Contents() == [])
    {
      d := [];
      if |buffers| > 0 {
        Pack();
        var v := buffers[0];
        var max := byteLength;
        var m := if n.None? || n.value > max then max else n.value;
        d := v[..m];
        buffers := if max > m then [v[m..]] else [];
        byteLength := max - m;
        FlattenOne(v[m..]);
      }
    }

    /** Appends `a`, even when it is empty, and those of `bufs` that are not empty. */
    method Fill(a: bytes, bufs: seq<bytes>)
      requires Valid()
      modifies this
      ensures Valid() && buffers != []
      ensures Contents() == old(Contents()) + a + Flatten(bufs)
    {
      ghost var before := Contents();
      FlattenConcat(buffers, [a]);
      FlattenOne(a);
      buffers := buffers + [a];
      byteLength := byteLength + |a|;
      var i := 0;
      while i < |bufs|
        invariant 0 <= i <= |bufs|
        invariant Valid() && buffers != []
        invariant Contents() + Flatten(bufs[i..]) == before + a + Flatten(bufs)
      {
        assert bufs[i..][1..] == bufs[i + 1..];
        if bufs[i] != [] {
          FlattenConcat(buffers, [bufs[i]]);
          FlattenOne(bufs[i]);
          buffers := buffers + [bufs[i]];
          byteLength := byteLength + |bufs[i]|;
        }
        i := i + 1;
      }
    }

    method Peek() returns (a: bytes)
      requires Valid()
      modifies this
      ensures Valid() && a == Contents() == old(Contents())
    {
      if |buffers| > 0 {
        Pack();
        return buffers[0];
      }
      return [];
    }
  }
}
