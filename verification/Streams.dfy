/** The memory stream of XLN/Core/Foundation/DataStream.cpp: a fixed buffer and a position in it.

    `Read` and `Write` are modelled as they behave with assertions compiled out: a transfer that would run past
    the end of the buffer is cut short there. */
module Streams {
  import opened Sequences

  type Byte = x: int | 0 <= x < 256

  /** A buffer with `w` written into it at `pos`, as far as it fits. */
  function Written(data: seq<Byte>, pos: nat, w: seq<Byte>): (r: seq<Byte>)
    requires pos <= |data|
    ensures |r| == |data|
  {
    var n := Fitting(|data| - pos, |w|);
    data[..pos] + w[..n] + data[pos + n..]
  }

  function Fitting(room: nat, count: nat): (n: nat)
    ensures n <= room && n <= count
    ensures n == room || n == count
  {
    if count > room then room else count
  }

  /** What is written stands at the position, as far as there is room, and all else is as it was. */
  lemma WrittenMeans(data: seq<Byte>, pos: nat, w: seq<Byte>)
    requires pos <= |data|
    ensures forall i | 0 <= i < |data| ::
              Written(data, pos, w)[i] == if pos <= i < pos + |w| then w[i - pos] else data[i]
  {
  }

  /** Writing twice is writing once what is to be written in both. */
  lemma WrittenTwice(data: seq<Byte>, pos: nat, w: seq<Byte>, x: seq<Byte>)
    requires pos <= |data|
    ensures var n := Fitting(|data| - pos, |w|);
            && Written(Written(data, pos, w), pos + n, x) == Written(data, pos, w + x)
            && n + Fitting(|data| - pos - n, |x|) == Fitting(|data| - pos, |w + x|)
  {
    var n := Fitting(|data| - pos, |w|);
    var m := Fitting(|data| - pos - n, |x|);
    assert (w + x)[..n + m] == w[..n] + x[..m];
  }

  /** `data` and `pos` are what is left when `w` has been written into `data0` at `pos0`. */
  ghost predicate Appends(data0: seq<Byte>, pos0: nat, data: seq<Byte>, pos: nat, w: seq<Byte>) {
    && pos0 <= |data0| == |data|
    && data == Written(data0, pos0, w)
    && pos == pos0 + Fitting(|data0| - pos0, |w|)
  }

  lemma NothingAppended(data0: seq<Byte>, pos0: nat)
    requires pos0 <= |data0|
    ensures Appends(data0, pos0, data0, pos0, [])
  {
  }

  lemma AppendsTwice(data0: seq<Byte>, pos0: nat, data: seq<Byte>, pos: nat, data': seq<Byte>, pos': nat,
                     w: seq<Byte>, x: seq<Byte>)
    requires Appends(data0, pos0, data, pos, w) && Appends(data, pos, data', pos', x)
    ensures Appends(data0, pos0, data', pos', w + x)
  {
    hide Written;
    WrittenTwice(data0, pos0, w, x);
  }

  class MemoryDataStream {
    const data: array<Byte>
    var pos: nat

    ghost predicate Valid()
      reads this
    {
      pos <= data.Length
    }

    /** What has not been read yet. */
    ghost function Remaining(): seq<Byte>
      requires Valid()
      reads this, data
    {
      data[pos..]
    }

    constructor (size: nat)
      ensures Valid() && pos == 0 && data.Length == size && fresh(data)
      ensures forall i | 0 <= i < size :: data[i] == 0
    {
      data := new Byte[size](i => 0);
      pos := 0;
    }

    method Read(buf: array<Byte>, count: nat) returns (cnt: nat)
      requires Valid() && buf != data && count <= buf.Length
      modifies `pos, buf
      ensures Valid() && cnt == Fitting(data.Length - old(pos), count) && pos == old(pos) + cnt
      ensures buf[..] == old(Remaining())[..cnt] + old(buf[cnt..])
    {
      cnt := count;
      if pos + cnt > data.Length {
        cnt := data.Length - pos;
      }
      if cnt == 0 {
        return 0;
      }
      forall i | 0 <= i < cnt {
        buf[i] := data[pos + i];
      }
      pos := pos + cnt;
    }

    method Write(buf: seq<Byte>) returns (cnt: nat)
      requires Valid()
      modifies `pos, data
      ensures Valid() && cnt == Fitting(data.Length - old(pos), |buf|) && pos == old(pos) + cnt
      ensures data[..] == Written(old(data[..]), old(pos), buf)
      ensures forall i | 0 <= i < data.Length ::
                data[i] == if old(pos) <= i < old(pos) + |buf| then buf[i - old(pos)] else old(data[i])
    {
      cnt := |buf|;
      if pos + cnt > data.Length {
        cnt := data.Length - pos;
      }
      if cnt == 0 {
        return 0;
      }
      forall i | 0 <= i < cnt {
        data[pos + i] := buf[i];
      }
      pos := pos + cnt;
    }

    method Seek(to: nat)
      requires to <= data.Length
      modifies `pos
      ensures Valid() && pos == to
    {
      pos := to;
    }

    method Tell() returns (at: nat)
      ensures at == pos
    {
      at := pos;
    }

    /** Writes the bytes of a value in the stream's byte order: back to front when it is not the host's. */
    method ByteOrderWrite(v: seq<Byte>, hostOrder: bool)
      requires Valid()
      modifies `pos, data
      ensures Valid() && pos == old(pos) + Fitting(data.Length - old(pos), |v|)
      ensures data[..] == Written(old(data[..]), old(pos), if hostOrder then v else Reversed(v))
    {
      if hostOrder {
        var cnt := Write(v);
      } else {
        hide Written, Reversed, Fitting, Appends;
        ghost var data0, pos0 := data[..], pos;
        var i: nat := |v|;
        NothingReversed(data0, pos0, v);
        while i > 0
          invariant i <= |v| && Valid() && Appends(data0, pos0, data[..], pos, Reversed(v[i..]))
        {
          i := i - 1;
          ghost var before, from := data[..], pos;
          var cnt := Write([v[i]]);
          AppendsOf(before, from, data[..], pos, [v[i]]);
          AppendsTwice(data0, pos0, before, from, data[..], pos, Reversed(v[i + 1..]), [v[i]]);
          ReversedSuffix(v, i);
        }
        AppendsMeans(data0, pos0, data[..], pos, Reversed(v[0..]));
        assert v[0..] == v;
      }
    }

    /** Reads one byte over another one, which stays where the stream has ended. */
    method ReadOver(x: Byte) returns (y: Byte)
      requires Valid()
      modifies `pos
      ensures Valid() && pos == old(pos) + Fitting(data.Length - old(pos), 1)
      ensures y == if old(pos) < data.Length then data[old(pos)] else x
    {
      var one := new Byte[1][x];
      var cnt := Read(one, 1);
      y := one[..][0];
    }

    /** Reads into `v` in the stream's byte order. Bytes the stream lacks stay as they are. */
    method ByteOrderRead(v: array<Byte>, hostOrder: bool)
      requires Valid() && v != data
      modifies `pos, v
      ensures Valid() && pos == old(pos) + Fitting(data.Length - old(pos), v.Length)
      ensures var n := Fitting(|old(Remaining())|, v.Length);
              v[..] == if hostOrder then old(Remaining())[..n] + old(v[n..])
              else old(v[..v.Length - n]) + Reversed(old(Remaining())[..n])
    {
      if hostOrder {
        var cnt := Read(v, v.Length);
      } else {
        ghost var b, pos0 := Remaining(), pos;
        var i: nat := v.Length;
        while i > 0
          invariant i <= v.Length && Valid() && pos == pos0 + Fitting(|b|, v.Length - i)
          invariant forall k | 0 <= k < v.Length ::
                      v[k] == if k >= i && v.Length - 1 - k < |b| then b[v.Length - 1 - k] else old(v[k])
        {
          i := i - 1;
          v[i] := ReadOver(v[i]);
        }
        hide Reversed;
        ReversedAt(b[..Fitting(|b|, v.Length)]);
      }
    }
  }

  lemma NothingReversed(data: seq<Byte>, pos: nat, v: seq<Byte>)
    requires pos <= |data|
    ensures Appends(data, pos, data, pos, Reversed(v[|v|..]))
  {
  }

  lemma AppendsOf(data0: seq<Byte>, pos0: nat, data: seq<Byte>, pos: nat, w: seq<Byte>)
    requires pos0 <= |data0| == |data| && data == Written(data0, pos0, w) && pos == pos0 + Fitting(|data0| - pos0, |w|)
    ensures Appends(data0, pos0, data, pos, w)
  {
  }

  lemma AppendsMeans(data0: seq<Byte>, pos0: nat, data: seq<Byte>, pos: nat, w: seq<Byte>)
    requires Appends(data0, pos0, data, pos, w)
    ensures pos0 <= |data0| == |data| && data == Written(data0, pos0, w) && pos == pos0 + Fitting(|data0| - pos0, |w|)
  {
  }

  lemma ReversedSuffix(v: seq<Byte>, i: nat)
    requires i < |v|
    ensures Reversed(v[i..]) == Reversed(v[i + 1..]) + [v[i]]
  {
    Suffixes(v, i);
  }

  /** A value written in one byte order and read back in the same one is the value written. */
  lemma ReversedTwice(v: seq<Byte>)
    ensures Reversed(Reversed(v)) == v
  {
    ReversedAt(v);
    ReversedAt(Reversed(v));
  }
}
