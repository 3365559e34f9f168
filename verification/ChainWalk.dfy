/** Chain walk over a descriptor table, and when it accepts a head. */
module ChainWalk {
  import opened Wrappers
  import opened Counting

  datatype Error =
    | BadSize(size: nat)
    | BadIndex(index: nat, tableSize: nat)
    | ChainTooLong(limit: nat)
    | Indirect
    | Unbacked(addr: nat, len: nat)
    | Request
    | Ring(gpa: nat)

  datatype Descriptor = Descriptor(addr: nat, len: nat, flags: nat, next: nat) {
    /** `VIRTQ_DESC_F_NEXT`, bit 0 of the flags. */
    predicate HasNext() { flags % 2 == 1 }
    /** `VIRTQ_DESC_F_WRITE`, bit 1. */
    predicate Writable() { flags / 2 % 2 == 1 }
    /** `VIRTQ_DESC_F_INDIRECT`, bit 2. */
    predicate IsIndirect() { flags / 4 % 2 == 1 }
  }

  /** Checked descriptor at each index of the table, or the fault found. */
  type Links = nat -> Result<Descriptor, Error>

  /** The walk in recursive form, `seen` holds the descriptors pushed so far. */
  function WalkFrom(links: Links, size: nat, index: nat, seen: seq<Descriptor>): Result<seq<Descriptor>, Error>
    requires |seen| <= size
    decreases size - |seen|
  {
    if index >= size then Err(BadIndex(index, size))
    else if |seen| >= size then Err(ChainTooLong(size))
    else
      match links(index)
      case Err(e) => Err(e)
      case Ok(d) =>
        if d.HasNext() then WalkFrom(links, size, d.next, seen + [d]) else Ok(seen + [d])
  }

  /** `index` holds a sound descriptor whose link leads to `next`. */
  predicate Continues(links: Links, index: nat, next: nat) {
    links(index).Ok? && links(index).value.HasNext() && links(index).value.next == next
  }

  /** `index` holds a sound descriptor which ends its chain. */
  predicate Ends(links: Links, index: nat) {
    links(index).Ok? && !links(index).value.HasNext()
  }

  /** Descriptor indices met by following the links from `head`. */
  ghost predicate Trail(links: Links, head: nat, path: seq<nat>) {
    && |path| > 0
    && path[0] == head
    && forall i :: 0 <= i < |path| - 1 ==> Continues(links, path[i], path[i + 1])
  }

  ghost function Last(path: seq<nat>): nat
    requires |path| > 0
  {
    path[|path| - 1]
  }

  /** The trail stops at its last index, at an end or at a fault. */
  ghost predicate Stops(links: Links, path: seq<nat>)
    requires |path| > 0
  {
    links(Last(path)).Err? || Ends(links, Last(path))
  }

  /** `descriptors` are the sound ones found along `path`. */
  ghost predicate Along(links: Links, path: seq<nat>, descriptors: seq<Descriptor>) {
    && |path| == |descriptors|
    && forall i :: 0 <= i < |path| ==> links(path[i]) == Ok(descriptors[i])
  }

  /** An index past the table is a fault of its own. */
  ghost predicate Tabled(links: Links, size: nat) {
    forall i: nat :: i >= size ==> links(i) == Err(BadIndex(i, size))
  }

  /** What a walk which followed `full` reports. */
  ghost predicate Reports(links: Links, size: nat, full: seq<nat>, r: Result<seq<Descriptor>, Error>)
    requires |full| > 0
  {
    if |full| == size + 1 && Last(full) < size then r == Err(ChainTooLong(size))
    else if Ends(links, Last(full)) then r.Ok? && Along(links, full, r.value)
    else links(Last(full)).Err? && r == Err(links(Last(full)).error)
  }

  /** A walk follows the trail until it meets an end, a fault, or a table's
      worth of descriptors. */
  lemma {:induction false} WalkFollowsTrail(links: Links, size: nat, head: nat, path: seq<nat>, seen: seq<Descriptor>)
    returns (full: seq<nat>)
    requires Tabled(links, size) && Trail(links, head, path)
    requires |seen| == |path| - 1 <= size
    requires Along(links, path[..|path| - 1], seen)
    ensures Trail(links, head, full)
    ensures Reports(links, size, full, WalkFrom(links, size, Last(path), seen))
    decreases size - |seen|
  {
    var index := Last(path);
    full := path;
    if index < size && |seen| < size && links(index).Ok? {
      var d := links(index).value;
      assert Along(links, path, seen + [d]);
      if d.HasNext() {
        var longer := path + [d.next];
        assert longer[..|longer| - 1] == path;
        full := WalkFollowsTrail(links, size, head, longer, seen + [d]);
      }
    }
  }

  /** Two trails from one head agree as far as both reach. */
  lemma {:induction false} TrailsAgree(links: Links, head: nat, p: seq<nat>, q: seq<nat>, n: nat)
    requires Trail(links, head, p) && Trail(links, head, q)
    requires n < |p| && n < |q|
    ensures p[n] == q[n]
  {
    if n > 0 {
      TrailsAgree(links, head, p, q, n - 1);
      assert Continues(links, p[n - 1], p[n - 1 + 1]);
      assert Continues(links, q[n - 1], q[n - 1 + 1]);
    }
  }

  /** A trail which meets one descriptor twice repeats itself from there. */
  lemma {:induction false} TrailRepeats(links: Links, head: nat, p: seq<nat>, i: nat, j: nat, n: nat)
    requires Trail(links, head, p)
    requires i < j <= n < |p| && p[i] == p[j]
    ensures p[n] == p[n - (j - i)]
  {
    if n > j {
      TrailRepeats(links, head, p, i, j, n - 1);
      var m := n - 1 - (j - i);
      assert Continues(links, p[n - 1], p[n - 1 + 1]);
      assert Continues(links, p[m], p[m + 1]);
    }
  }

  /** A trail which stops has met no descriptor twice. */
  lemma StoppedTrailHasNoLoop(links: Links, head: nat, p: seq<nat>)
    requires Trail(links, head, p) && Stops(links, p)
    ensures NoDuplicate(p)
  {
    forall i, j | 0 <= i < j < |p|
      ensures p[i] != p[j]
    {
      var n := |p| - 1;
      var m := n - (j - i);
      assert Continues(links, p[m], p[m + 1]);
      if p[i] == p[j] {
        TrailRepeats(links, head, p, i, j, n);
      }
    }
  }

  /** No trail runs past the place where one stops. */
  lemma StopsEveryTrail(links: Links, head: nat, full: seq<nat>, path: seq<nat>)
    requires Trail(links, head, full) && Trail(links, head, path)
    requires Stops(links, full)
    ensures |path| <= |full| && path == full[..|path|]
  {
    var n := |full| - 1;
    assert |path| > |full| ==> Continues(links, path[n], path[n + 1]);
    if |path| >= |full| {
      TrailsAgree(links, head, full, path, n);
    }
    forall n: nat | n < |path|
      ensures path[n] == full[n]
    {
      TrailsAgree(links, head, full, path, n);
    }
  }

  /** A trail as long as the table and one more has looped, and then no
      trail from its head ever stops. */
  lemma LongTrailLoops(links: Links, size: nat, head: nat, full: seq<nat>)
    requires Tabled(links, size) && Trail(links, head, full)
    requires |full| == size + 1 && Last(full) < size
    ensures !NoDuplicate(full)
    ensures forall path :: Trail(links, head, path) ==> !Stops(links, path)
  {
    forall i | 0 <= i < |full|
      ensures full[i] < size
    {
      if i < size {
        assert Continues(links, full[i], full[i + 1]);
      }
    }
    if NoDuplicate(full) {
      Pigeonhole(full, size);
    }
    forall path | Trail(links, head, path)
      ensures !Stops(links, path)
    {
      if Stops(links, path) {
        StoppedTrailHasNoLoop(links, head, path);
        StopsEveryTrail(links, head, path, full);
      }
    }
  }

  /** A head is accepted when its links lead, meeting no descriptor twice,
      to a sound last one. */
  ghost predicate Accepts(links: Links, head: nat, path: seq<nat>) {
    Trail(links, head, path) && NoDuplicate(path) && Ends(links, Last(path))
  }

  /** A head is at fault when its links lead to a descriptor refused with `e`. */
  ghost predicate Faults(links: Links, head: nat, path: seq<nat>, e: Error) {
    Trail(links, head, path) && NoDuplicate(path) && links(Last(path)) == Err(e)
  }

  /** The links from a head meet a descriptor twice. */
  ghost predicate Loops(links: Links, head: nat, path: seq<nat>) {
    Trail(links, head, path) && !NoDuplicate(path)
  }

  /** The walk is exact: it accepts a head if and only if a loop-free trail
      ends there, returning the descriptors along it; it reports
      `ChainTooLong` if and only if the links loop; and any other error if
      and only if it is the fault the trail leads to. */
  lemma WalkExact(links: Links, size: nat, head: nat)
    requires Tabled(links, size)
    requires forall i: nat :: links(i).Err? ==> !links(i).error.ChainTooLong?
    ensures var r := WalkFrom(links, size, head, []);
            && (r.Ok? <==> exists path :: Accepts(links, head, path))
            && (forall path :: r.Ok? && Accepts(links, head, path) ==> Along(links, path, r.value) && |path| <= size)
            && (r == Err(ChainTooLong(size)) <==> exists path :: Loops(links, head, path))
            && (forall e: Error :: !e.ChainTooLong? ==> (r == Err(e) <==> exists path :: Faults(links, head, path, e)))
  {
    assert [head][..0] == [];
    assert Trail(links, head, [head]);
    var full := WalkFollowsTrail(links, size, head, [head], []);
    if |full| == size + 1 && Last(full) < size {
      LongTrailLoops(links, size, head, full);
      assert Loops(links, head, full);
    } else {
      StoppedTrail(links, size, head, full);
      if Ends(links, Last(full)) {
        assert Accepts(links, head, full);
      } else {
        assert Faults(links, head, full, links(Last(full)).error);
      }
    }
  }

  /** A trail which stops is the only one which does, and none loops. */
  lemma StoppedTrail(links: Links, size: nat, head: nat, full: seq<nat>)
    requires Tabled(links, size) && Trail(links, head, full) && Stops(links, full)
    ensures NoDuplicate(full)
    ensures Ends(links, Last(full)) ==> |full| <= size
    ensures forall path :: Trail(links, head, path) ==> NoDuplicate(path) && (Stops(links, path) ==> path == full)
  {
    StoppedTrailHasNoLoop(links, head, full);
    if Ends(links, Last(full)) {
      forall i | 0 <= i < |full|
        ensures full[i] < size
      {
        if i < |full| - 1 {
          assert Continues(links, full[i], full[i + 1]);
        }
      }
      Pigeonhole(full, size);
    }
    forall path | Trail(links, head, path)
      ensures NoDuplicate(path) && (Stops(links, path) ==> path == full)
    {
      StopsEveryTrail(links, head, full, path);
      if Stops(links, path) {
        StopsEveryTrail(links, head, path, full);
      }
    }
  }
}
