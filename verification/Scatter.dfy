/** Buffers of a request as one run of bytes: a slice of the disk laid across
    them, or taken from them. */
module Scatter {
  import opened Bytes
  import opened GuestMemory
  import opened ChainWalk

  function Total(data: seq<Descriptor>): nat {
    if data == [] then 0 else data[0].len + Total(data[1..])
  }

  /** RAM once `slice` is laid across the buffers in order. */
  function Scattered(ram: Ram, data: seq<Descriptor>, slice: seq<Byte>): (r: Ram)
    requires |slice| == Total(data)
    ensures r.Keys == ram.Keys
    decreases |data|
  {
    if data == [] then ram
    else Scattered(Store(ram, data[0].addr, slice[..data[0].len]), data[1..], slice[data[0].len..])
  }

  /** Content of the buffers in order. */
  function Gathered(ram: Ram, data: seq<Descriptor>): (s: seq<Byte>)
    ensures |s| == Total(data)
    decreases |data|
  {
    if data == [] then [] else Load(ram, data[0].addr, data[0].len) + Gathered(ram, data[1..])
  }

  predicate InBuffer(d: Descriptor, a: int) {
    d.addr <= a < d.addr + d.len
  }

  ghost predicate InBuffers(data: seq<Descriptor>, a: int) {
    exists i :: 0 <= i < |data| && InBuffer(data[i], a)
  }

  predicate Apart(d: Descriptor, e: Descriptor) {
    d.addr + d.len <= e.addr || e.addr + e.len <= d.addr
  }

  ghost predicate PairwiseApart(data: seq<Descriptor>) {
    forall i, j :: 0 <= i < j < |data| ==> Apart(data[i], data[j])
  }

  ghost predicate AllBacked(ram: Ram, data: seq<Descriptor>) {
    forall i :: 0 <= i < |data| ==> Holds(ram, data[i].addr, data[i].len)
  }

  /** Nothing outside the buffers is written. */
  lemma {:induction false} ScatterFrame(ram: Ram, data: seq<Descriptor>, slice: seq<Byte>, a: int)
    requires |slice| == Total(data) && a in ram && !InBuffers(data, a)
    ensures Scattered(ram, data, slice)[a] == ram[a]
    decreases |data|
  {
    if data != [] {
      var stored := Store(ram, data[0].addr, slice[..data[0].len]);
      assert !InBuffer(data[0], a);
      forall i | 0 <= i < |data[1..]|
        ensures !InBuffer(data[1..][i], a)
      {
        assert !InBuffer(data[i + 1], a);
      }
      ScatterFrame(stored, data[1..], slice[data[0].len..], a);
    }
  }

  lemma NotInOthers(data: seq<Descriptor>, a: int)
    requires data != [] && PairwiseApart(data) && InBuffer(data[0], a)
    ensures !InBuffers(data[1..], a)
  {
    forall i | 0 <= i < |data[1..]|
      ensures !InBuffer(data[1..][i], a)
    {
      assert Apart(data[0], data[i + 1]);
    }
  }

  lemma LoadIs(ram: Ram, gpa: int, s: seq<Byte>)
    requires forall k :: 0 <= k < |s| ==> gpa + k in ram && ram[gpa + k] == s[k]
    ensures Load(ram, gpa, |s|) == s
  {
  }

  lemma StoredByte(ram: Ram, gpa: int, s: seq<Byte>, a: int)
    requires Holds(ram, gpa, |s|) && gpa <= a < gpa + |s|
    ensures a in Store(ram, gpa, s) && Store(ram, gpa, s)[a] == s[a - gpa]
  {
  }

  lemma FirstBufferKept(ram: Ram, data: seq<Descriptor>, slice: seq<Byte>)
    requires data != [] && |slice| == Total(data) && PairwiseApart(data) && Holds(ram, data[0].addr, data[0].len)
    ensures Load(Scattered(ram, data, slice), data[0].addr, data[0].len) == slice[..data[0].len]
  {
    hide Store, Scattered, Load, PairwiseApart, Total, InBuffers;
    FirstThenRest(ram, data, slice);
    var d, rest, first := data[0], data[1..], slice[..data[0].len];
    var after := Scattered(ram, data, slice);
    forall k | 0 <= k < |first|
      ensures d.addr + k in after && after[d.addr + k] == first[k]
    {
      StoredByte(ram, d.addr, first, d.addr + k);
      NotInOthers(data, d.addr + k);
      ScatterFrame(Store(ram, d.addr, first), rest, slice[d.len..], d.addr + k);
    }
    LoadIs(after, d.addr, first);
  }

  lemma FirstThenRest(ram: Ram, data: seq<Descriptor>, slice: seq<Byte>)
    requires data != [] && |slice| == Total(data)
    ensures data[0].len <= |slice| && |slice[data[0].len..]| == Total(data[1..])
    ensures Scattered(ram, data, slice) ==
            Scattered(Store(ram, data[0].addr, slice[..data[0].len]), data[1..], slice[data[0].len..])
  {
  }

  /** The buffers read back as the slice laid across them, if no two of
      them overlap. */
  lemma {:induction false} ScatterGather(ram: Ram, data: seq<Descriptor>, slice: seq<Byte>)
    requires |slice| == Total(data) && PairwiseApart(data) && AllBacked(ram, data)
    ensures Gathered(Scattered(ram, data, slice), data) == slice
    decreases |data|
  {
    if data != [] {
      var n, rest := data[0].len, data[1..];
      var stored := Store(ram, data[0].addr, slice[..n]);
      assert PairwiseApart(rest);
      assert AllBacked(stored, rest) by {
        forall i | 0 <= i < |rest|
          ensures Holds(stored, rest[i].addr, rest[i].len)
        {
          assert Holds(ram, data[i + 1].addr, data[i + 1].len);
        }
      }
      ScatterGather(stored, rest, slice[n..]);
      FirstBufferKept(ram, data, slice);
      assert slice == slice[..n] + slice[n..];
    }
  }

  /** Buffers laid one after another: the first of them, then the next. */
  lemma {:induction false} ScatteredSnoc(ram: Ram, data: seq<Descriptor>, d: Descriptor, slice: seq<Byte>,
                                         more: seq<Byte>)
    requires |slice| == Total(data) && |more| == d.len
    ensures Total(data + [d]) == Total(data) + d.len
    ensures Scattered(ram, data + [d], slice + more) == Store(Scattered(ram, data, slice), d.addr, more)
    decreases |data|
  {
    var all, bytes := data + [d], slice + more;
    if data == [] {
      assert all[1..] == [] && bytes == more && Total(all[1..]) == 0;
      assert bytes[..d.len] == more && bytes[d.len..] == [];
    } else {
      var stored := Store(ram, data[0].addr, slice[..data[0].len]);
      ScatteredSnoc(stored, data[1..], d, slice[data[0].len..], more);
      assert all[1..] == data[1..] + [d];
      assert bytes[..data[0].len] == slice[..data[0].len];
      assert bytes[data[0].len..] == slice[data[0].len..] + more;
    }
  }

  /** Filling buffer `i` after those before it. */
  lemma ScatteredNext(ram: Ram, data: seq<Descriptor>, i: nat, slice: seq<Byte>, more: seq<Byte>)
    requires i < |data| && |slice| == Total(data[..i]) && |more| == data[i].len
    ensures Total(data[..i + 1]) == |slice + more|
    ensures Scattered(ram, data[..i + 1], slice + more) == Store(Scattered(ram, data[..i], slice), data[i].addr, more)
  {
    assert data[..i + 1] == data[..i] + [data[i]];
    ScatteredSnoc(ram, data[..i], data[i], slice, more);
  }

  lemma {:induction false} GatheredSnoc(ram: Ram, data: seq<Descriptor>, d: Descriptor)
    ensures Total(data + [d]) == Total(data) + d.len
    ensures Gathered(ram, data + [d]) == Gathered(ram, data) + Load(ram, d.addr, d.len)
    decreases |data|
  {
    if data == [] {
      assert (data + [d])[1..] == [];
    } else {
      GatheredSnoc(ram, data[1..], d);
      assert (data + [d])[1..] == data[1..] + [d];
    }
  }

  /** The first buffers hold the start of what all of them hold. */
  lemma {:induction false} GatheredPrefix(ram: Ram, data: seq<Descriptor>, n: nat)
    requires n <= |data|
    ensures Total(data[..n]) <= Total(data)
    ensures Gathered(ram, data[..n]) == Gathered(ram, data)[..Total(data[..n])]
    decreases |data|
  {
    if n > 0 {
      GatheredPrefix(ram, data[1..], n - 1);
      assert data[..n][1..] == data[1..][..n - 1];
    }
  }

  /** Buffer `i` holds the piece after those of the buffers before it. */
  lemma GatheredNext(ram: Ram, data: seq<Descriptor>, i: nat)
    requires i < |data|
    ensures Total(data[..i + 1]) == Total(data[..i]) + data[i].len <= Total(data)
    ensures Load(ram, data[i].addr, data[i].len) == Gathered(ram, data)[Total(data[..i])..Total(data[..i + 1])]
  {
    assert data[..i + 1] == data[..i] + [data[i]];
    GatheredSnoc(ram, data[..i], data[i]);
    GatheredPrefix(ram, data, i);
    GatheredPrefix(ram, data, i + 1);
    hide Gathered, Total, Load;
    var all, n, m := Gathered(ram, data), Total(data[..i]), Total(data[..i + 1]);
    assert all[..m] == all[..n] + Load(ram, data[i].addr, data[i].len);
    assert all[..m][n..] == all[n..m];
  }
}
