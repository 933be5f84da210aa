// SliceVector over octets (yate-svn/yatemath.h): windows into reference-counted storage.

module SliceVectors {
  import opened Options

  type Element = x: int | 0 <= x < 256 // uint8_t: arithmetic wraps around modulo 256

  const LIMIT := 0x1_0000_0000 // lengths and offsets are 32-bit

  function Zeroed(n: nat): (z: seq<Element>)
    ensures |z| == n && forall i :: 0 <= i < n ==> z[i] == 0
  { seq(n, _ => 0) }

  // A fixed buffer and the number of vectors that hold it; it is gone when that is zero.
  class RefStorage {
    var refs: int
    const data: array<Element>
    ghost var holders: set<SliceVector>

    // A copy of the octets given, in a buffer of `size` octets that is zero beyond them.
    constructor (content: seq<Element>, size: nat, ghost owner: SliceVector)
      requires |content| <= size
      ensures holders == {owner} && data.Length == size
      ensures fresh(data) && data[..] == content + Zeroed(size - |content|) && refs == 1
    {
      data := new Element[size](i => if 0 <= i < |content| then content[i] else 0);
      refs := 1;
      holders := {owner};
      new;
      assert data[..] == content + Zeroed(size - |content|);
    }

    // Copies a buffer into the storage if it fits.
    method Set(buf: seq<Element>, offs: nat) returns (ok: bool)
      modifies data
      ensures ok == (buf == [] || offs + |buf| <= data.Length)
      ensures data[..] == if ok && buf != []
                          then old(data[..offs]) + buf + old(data[offs + |buf|..])
                          else old(data[..])
    {
      if buf == [] { return true; }
      if offs + |buf| > data.Length { return false; }
      forall i | 0 <= i < |buf| { data[offs + i] := buf[i]; }
      return true;
    }
  }

  ghost function Storages(vs: set<SliceVector>): set<RefStorage>
    reads vs`storage
  {
    set v | v in vs && v.storage != null :: v.storage
  }

  // The invariant of a collection of vectors: each is a window inside its storage, and
  // each storage counts exactly the vectors that hold it.
  ghost predicate Sharing(vs: set<SliceVector>)
    reads vs`storage, vs`start, vs`length, vs`maxLen, Storages(vs)`refs, Storages(vs)`holders
  {
    (forall v <- vs :: v.Window()) && Counted(vs) && Separate(vs)
  }

  ghost predicate Counted(vs: set<SliceVector>)
    reads vs`storage, Storages(vs)`refs, Storages(vs)`holders
  {
    forall v <- vs :: v.storage != null ==>
      && v.storage.refs == |v.storage.holders| && v.storage.holders <= vs
      && forall w <- vs :: w in v.storage.holders <==> w.storage == v.storage
  }

  // Different storages own different buffers.
  ghost predicate Separate(vs: set<SliceVector>)
    reads vs`storage
  {
    forall v <- vs, w <- vs :: v.storage != null && w.storage != null && v.storage != w.storage ==>
      v.storage.data != w.storage.data
  }

  lemma WindowOf(v: SliceVector, vs: set<SliceVector>)
    requires Sharing(vs) && v in vs
    ensures v.Window()
  {}

  lemma SliceOfSlice<T>(d: seq<T>, a: nat, l: nat, o: nat, n: nat)
    requires a + l <= |d| && o + n <= l
    ensures d[a..a + l][o..o + n] == d[a + o..a + o + n]
  {
    var left, right := d[a..a + l][o..o + n], d[a + o..a + o + n];
    forall i | 0 <= i < |left| ensures left[i] == right[i] {}
  }

  // What the invariant says of one storage: its count is the number of vectors that hold
  // it, so it is alive as long as one of them does.
  lemma RefsCountHolders(vs: set<SliceVector>, v: SliceVector)
    requires Sharing(vs) && v in vs && v.storage != null
    ensures v.storage.refs == |set w | w in vs && w.storage == v.storage| >= 1
  {
    assert v.storage.holders == set w | w in vs && w.storage == v.storage;
    assert v in v.storage.holders && {v} <= v.storage.holders;
    assert |{v}| <= |v.storage.holders|;
  }

  // What stands at the front of a buffer after a run has been written behind it.
  lemma Written(d: seq<Element>, front: seq<Element>, run: seq<Element>, r: seq<Element>)
    requires |front| + |run| <= |d| && d[..|front|] == front
    requires r == if run == [] then d else d[..|front|] + run + d[|front| + |run|..]
    ensures |r| == |d| && r[..|front| + |run|] == front + run
  {
  }

  // The test of data(offs, n) on a vector of a given length: the sum is 32 bits wide.
  predicate Granted(offs: nat, n: nat, length: nat) { n > 0 && length > 0 && (offs + n) % LIMIT <= length }

  // Requests for which the sum does not wrap around, or wraps and is refused all the same.
  predicate Sound(offs: nat, n: nat, length: nat) {
    n == 0 || length == 0 || offs + n < LIMIT || offs + n > LIMIT + length
  }

  // Exactly for these the test does what it is for: what it grants is there.
  lemma GrantedExactly(offs: nat, n: nat, length: nat)
    requires offs < LIMIT && n < LIMIT && length < LIMIT
    ensures (Granted(offs, n, length) ==> offs + n <= length) <==> Sound(offs, n, length)
    ensures offs + n <= length && n > 0 ==> Granted(offs, n, length)
    ensures Granted(offs, n, length) ==> n > 0 && length > 0
  {
    if offs + n >= LIMIT {
      assert (offs + n) % LIMIT == offs + n - LIMIT;
    }
  }

  // For every other request that is granted no window of the storage fits, so taking it
  // breaks the invariant.
  lemma WrappedWindow(v: SliceVector, offs: nat, n: nat)
    requires v.Window() && v.storage != null && v.storage.data.Length < LIMIT
    requires offs < LIMIT && n < LIMIT && !Sound(offs, n, v.length)
    ensures Granted(offs, n, v.length) && v.start + offs + n > v.storage.data.Length
  {
    GrantedExactly(offs, n, v.length);
  }

  // slice(0xffffffff, 1) of any vector that is not empty.
  lemma LastOffset(length: nat)
    requires 0 < length < LIMIT
    ensures Granted(LIMIT - 1, 1, length) && !Sound(LIMIT - 1, 1, length)
  {
    assert (LIMIT - 1 + 1) % LIMIT == 0;
  }

  // tail(dest, 0), which asks for all elements from behind the last: exactly for vectors of
  // 2^31 elements or more.
  lemma TailOfNothing(length: nat)
    requires 0 < length < LIMIT
    ensures Granted(length, length, length) <==> 2 * length >= LIMIT
    ensures Sound(length, length, length) <==> 2 * length < LIMIT
  {
    if 2 * length >= LIMIT {
      assert (length + length) % LIMIT == 2 * length - LIMIT;
    }
  }

  // The storage a concatenating constructor reserves, its size added up in 32 bits, holds
  // all elements exactly when the sum does not wrap around.
  lemma JoinedFits(first: nat, total: nat)
    requires first < LIMIT && first <= total < 3 * LIMIT
    ensures (if total % LIMIT < first then first else total % LIMIT) >= total <==> total < LIMIT
  {
    assert total >= LIMIT ==> total % LIMIT < LIMIT;
  }

  datatype Operator = Plus | Minus

  function Apply(op: Operator, a: Element, b: Element): Element {
    if op == Plus then (a as int + b as int) % 256 else (a as int - b as int) % 256
  }

  // A buffer s after the first i steps of combining the window at `at` with the window at
  // `from` of the same buffer or of another one, t: from the first element to the last,
  // in place, so that elements the windows share may have changed before they are read.
  ghost function Swept(op: Operator, s: seq<Element>, at: nat, same: bool, t: seq<Element>, from: nat, i: nat):
      (r: seq<Element>)
    requires at + i <= |s| && from + i <= |if same then s else t|
    ensures |r| == |s|
  {
    if i == 0 then s
    else
      var p := Swept(op, s, at, same, t, from, i - 1);
      p[at + i - 1 := Apply(op, p[at + i - 1], (if same then p else t)[from + i - 1])]
  }

  // Windows of n elements that share none.
  predicate Apart(at: nat, same: bool, from: nat, n: nat) {
    !same || from + n <= at || at + n <= from
  }

  lemma {:induction false} SweptApart(op: Operator, s: seq<Element>, at: nat, same: bool, t: seq<Element>,
                                      from: nat, n: nat)
    requires at + n <= |s| && from + n <= |if same then s else t| && Apart(at, same, from, n)
    ensures var other := if same then s else t;
            var r := Swept(op, s, at, same, t, from, n);
            forall p :: 0 <= p < |s| ==>
              r[p] == if at <= p < at + n then Apply(op, s[p], other[from + p - at]) else s[p]
  {
    if n > 0 {
      SweptApart(op, s, at, same, t, from, n - 1);
    }
  }

  // Every element of a window of n becomes its sum, or difference, modulo 256 with the
  // element of the other window, and nothing else changes.
  predicate Added(was: seq<Element>, now: seq<Element>, at: nat, other: seq<Element>, from: nat, n: nat)
    requires |was| == |now| && at + n <= |was| && from + n <= |other|
  {
    && (forall p :: at <= p < at + n ==> now[p] == (was[p] as int + other[from + p - at] as int) % 256)
    && (forall p :: 0 <= p < |was| && !(at <= p < at + n) ==> now[p] == was[p])
  }

  predicate Subtracted(was: seq<Element>, now: seq<Element>, at: nat, other: seq<Element>, from: nat, n: nat)
    requires |was| == |now| && at + n <= |was| && from + n <= |other|
  {
    && (forall p :: at <= p < at + n ==> now[p] == (was[p] as int - other[from + p - at] as int) % 256)
    && (forall p :: 0 <= p < |was| && !(at <= p < at + n) ==> now[p] == was[p])
  }

  lemma SweptNumbers(s: seq<Element>, at: nat, same: bool, t: seq<Element>, from: nat, n: nat)
    requires at + n <= |s| && from + n <= |if same then s else t| && Apart(at, same, from, n)
    ensures Added(s, Swept(Plus, s, at, same, t, from, n), at, if same then s else t, from, n)
    ensures Subtracted(s, Swept(Minus, s, at, same, t, from, n), at, if same then s else t, from, n)
  {
    SweptApart(Plus, s, at, same, t, from, n);
    SweptApart(Minus, s, at, same, t, from, n);
  }

  // Subtracting what was added restores the whole buffer, for windows that share nothing.
  lemma SumThenSub(s: seq<Element>, at: nat, same: bool, t: seq<Element>, from: nat, n: nat)
    requires at + n <= |s| && from + n <= |if same then s else t| && Apart(at, same, from, n)
    ensures Swept(Minus, Swept(Plus, s, at, same, t, from, n), at, same, t, from, n) == s
  {
    var sum := Swept(Plus, s, at, same, t, from, n);
    SweptApart(Plus, s, at, same, t, from, n);
    SweptApart(Minus, sum, at, same, t, from, n);
  }

  // An element is settled when the sweep has passed it, and untouched until then.
  lemma {:induction false} SweptElement(op: Operator, s: seq<Element>, at: nat, same: bool, t: seq<Element>,
                                        from: nat, i: nat, p: nat)
    requires at + i <= |s| && from + i <= |if same then s else t| && p < |s|
    ensures var r := Swept(op, s, at, same, t, from, i);
            r[p] == if at <= p < at + i
                    then Apply(op, s[p], (if same then Swept(op, s, at, same, t, from, p - at) else t)[from + p - at])
                    else s[p]
  {
    if i > 0 {
      SweptElement(op, s, at, same, t, from, i - 1, p);
    }
  }

  ghost predicate Restores(s: seq<Element>, at: nat, same: bool, t: seq<Element>, from: nat, n: nat)
    requires at + n <= |s| && from + n <= |if same then s else t|
  {
    Swept(Minus, Swept(Plus, s, at, same, t, from, n), at, same, t, from, n) == s
  }

  // Windows that overlap do not give a buffer of ones back.
  lemma OverlapNotRestored(s: seq<Element>, at: nat, t: seq<Element>, from: nat, n: nat)
    requires at + n <= |s| && from + n <= |s| && 0 < n && !Apart(at, true, from, n)
    requires forall p :: 0 <= p < |s| ==> s[p] == 1
    ensures !Restores(s, at, true, t, from, n)
  {
    hide Swept;
    var sum := Swept(Plus, s, at, true, t, from, n);
    var sub := Swept(Minus, sum, at, true, t, from, n);
    SweptElement(Plus, s, at, true, t, from, 0, from);
    SweptElement(Plus, s, at, true, t, from, n, at);
    SweptElement(Plus, s, at, true, t, from, n, from);
    SweptElement(Minus, sum, at, true, t, from, n, at);
    SweptElement(Minus, sum, at, true, t, from, 0, from);
    if at <= from {
      SweptElement(Plus, s, at, true, t, from, from - at, from + from - at);
      assert sub[at] == 0;
    } else {
      var d := at - from;
      SweptElement(Plus, s, at, true, t, from, n, at + d);
      SweptElement(Plus, s, at, true, t, from, d, at);
      SweptElement(Minus, sum, at, true, t, from, n, at + d);
      SweptElement(Minus, sum, at, true, t, from, d, at);
      assert sub[at + d] == 2;
    }
  }

  // Subtracting restores every content of a buffer exactly for windows that share nothing.
  lemma RestoredExactly(size: nat, at: nat, same: bool, t: seq<Element>, from: nat, n: nat)
    requires at + n <= size && from + n <= if same then size else |t|
    ensures (forall s: seq<Element> | |s| == size :: Restores(s, at, same, t, from, n)) <==>
            n == 0 || Apart(at, same, from, n)
  {
    hide Restores, Swept;
    if n == 0 || Apart(at, same, from, n) {
      forall s: seq<Element> | |s| == size ensures Restores(s, at, same, t, from, n) {
        ApartRestored(s, at, same, t, from, n);
      }
    } else {
      var ones: seq<Element> := seq(size, _ => 1);
      OverlapNotRestored(ones, at, t, from, n);
    }
  }

  lemma ApartRestored(s: seq<Element>, at: nat, same: bool, t: seq<Element>, from: nat, n: nat)
    requires at + n <= |s| && from + n <= |if same then s else t|
    requires n == 0 || Apart(at, same, from, n)
    ensures Restores(s, at, same, t, from, n)
  {
    if n > 0 { SumThenSub(s, at, same, t, from, n); }
  }

  class SliceVector {
    var storage: RefStorage?
    var start: nat // where the data pointer stands in the storage
    var length: nat
    var maxLen: nat

    ghost predicate Window()
      reads this`storage, this`start, this`length, this`maxLen
    {
      && length <= maxLen
      && (storage == null ==> maxLen == 0)
      && (storage != null ==> 0 < maxLen && start + maxLen <= storage.data.Length)
    }

    ghost function Elems(): seq<Element>
      requires Window()
      reads this, if storage == null then {} else {storage.data}
    {
      if storage == null then [] else storage.data[start..start + length]
    }

    // The storage held, if any.
    ghost function Mine(): set<RefStorage>
      reads this`storage
    {
      if storage == null then {} else {storage}
    }

    constructor ()
      ensures storage == null && length == 0 && maxLen == 0 && Window()
    {
      storage, start, length, maxLen := null, 0, 0, 0;
    }

    // Gives up our reference.
    method Release(ghost vs: set<SliceVector>)
      requires this in vs && Counted(vs) && Separate(vs)
      modifies this`storage, Mine()`refs, Mine()`holders
      ensures Counted(vs) && Separate(vs) && storage == null
      ensures old(storage) != null ==>
        old(storage).refs == old(storage.refs) - 1 && old(storage).holders == old(storage.holders) - {this}
    {
      if storage != null {
        storage.refs := storage.refs - 1;
        storage.holders := storage.holders - {this};
        storage := null;
      }
    }

    // A vector without data has no storage.
    method Clear(ghost vs: set<SliceVector>)
      requires this in vs && Sharing(vs)
      modifies this, Mine()`refs, Mine()`holders
      ensures Sharing(vs) && storage == null && length == 0 && maxLen == 0
      ensures old(storage) != null ==>
        old(storage).refs == old(storage.refs) - 1 && old(storage).holders == old(storage.holders) - {this}
    {
      hide Counted, Separate;
      length, maxLen := 0, 0;
      Release(vs);
      assert forall v <- vs :: v.Window();
    }

    // Reserves a storage of at least `len` octets and copies what is given into it.
    method InitStorage(len: nat, data: Option<seq<Element>>, max: nat, ghost vs: set<SliceVector>)
      returns (ok: bool)
      requires this in vs && Sharing(vs) && storage == null
      requires data.Some? ==> |data.value| == len
      modifies this
      ensures Sharing(vs) && ok == (len > 0 || max > 0)
      ensures ok ==>
        && storage != null && fresh(storage) && fresh(storage.data)
        && start == 0 && length == len && maxLen == storage.data.Length == (if max < len then len else max)
        && storage.data[..] ==
           (if data.Some? then data.value else Zeroed(len)) + Zeroed(maxLen - len)
      ensures !ok ==> storage == null && length == 0 && maxLen == 0
    {
      hide Counted, Separate, Zeroed;
      var size := if max < len then len else max;
      if size == 0 {
        length, maxLen := 0, 0;
        return false;
      }
      Own(if data.Some? then data.value else Zeroed(len), size, vs);
      return true;
    }

    // Takes a new storage, of which this vector is the only holder.
    method Own(content: seq<Element>, size: nat, ghost vs: set<SliceVector>)
      requires this in vs && Sharing(vs) && storage == null && |content| <= size && size > 0
      modifies this
      ensures Sharing(vs) && storage != null && fresh(storage) && fresh(storage.data)
      ensures start == 0 && length == |content| && maxLen == size
      ensures storage.data[..] == content + Zeroed(size - |content|)
    {
      hide Zeroed;
      storage := new RefStorage(content, size, this);
      start, length, maxLen := 0, |content|, size;
      assert Separate(vs);
      assert forall v <- vs :: v.Window();
      forall v <- vs | v.storage != null
        ensures v.storage.refs == |v.storage.holders| && v.storage.holders <= vs
      {}
      forall v <- vs, w <- vs | v.storage != null
        ensures w in v.storage.holders <==> w.storage == v.storage
      {}
      assert Counted(vs);
    }

    // Takes a reference to the storage another vector holds.
    method Take(other: SliceVector, ghost vs: set<SliceVector>)
      requires this in vs && other in vs && Counted(vs) && Separate(vs)
      requires storage == null && other.storage != null
      modifies this`storage, other.storage`refs, other.storage`holders
      ensures Counted(vs) && Separate(vs) && storage == other.storage == old(other.storage)
      ensures storage.refs == old(other.storage.refs) + 1
    {
      var s: RefStorage := other.storage;
      s.refs := s.refs + 1;
      s.holders := s.holders + {this};
      storage := s;
    }

    // Exchanges the storage held for the one another vector holds.
    method Share(other: SliceVector, ghost vs: set<SliceVector>)
      requires this in vs && other in vs && Counted(vs) && Separate(vs) && other.storage != null
      modifies this`storage, other.storage`refs, other.storage`holders, Mine()`refs, Mine()`holders
      ensures Counted(vs) && Separate(vs) && storage == old(other.storage)
    {
      hide Counted, Separate;
      if storage != other.storage {
        Release(vs);
        Take(other, vs);
      }
    }

    // `len` elements are there from `offs` on, and there is something to take.
    predicate Available(offs: nat, len: nat)
      reads this
    {
      len > 0 && length > 0 && offs + len <= length
    }

    // The available case of InitSlice.
    method Adopt(other: SliceVector, offs: nat, n: nat, ghost vs: set<SliceVector>)
      requires this in vs && other in vs && Sharing(vs) && other.Available(offs, n)
      modifies this, other.storage`refs, other.storage`holders, Mine()`refs, Mine()`holders
      ensures Sharing(vs)
      ensures storage == old(other.storage) && start == old(other.start) + offs
      ensures length == n == maxLen
    {
      hide Counted, Separate;
      var from := other.start + offs;
      Share(other, vs);
      start, length, maxLen := from, n, n;
      assert forall v <- vs :: v.Window();
    }

    // Makes this vector a window of `other` (which may be this vector itself), for the
    // requests on which the test of the source is sound.
    method InitSlice(del: bool, other: SliceVector, offs: nat, len: nat, ghost vs: set<SliceVector>)
      returns (ok: bool)
      requires this in vs && other in vs && Sharing(vs)
      requires offs < LIMIT && len < LIMIT && other.length < LIMIT
      requires Sound(offs, if len == 0 then other.length else len, other.length)
      modifies this, Mine()`refs, Mine()`holders, other.Mine()`refs, other.Mine()`holders
      ensures Sharing(vs)
      ensures var n := if len == 0 then old(other.length) else len;
              if old(other.Available(offs, n)) then
                && ok && storage == old(other.storage) && start == old(other.start) + offs
                && length == n == maxLen
                && Elems() == old(other.Elems())[offs..offs + n]
              else
                && ok == (n == 0)
                && (del ==> storage == null && length == 0)
                && (!del ==> storage == old(storage) && start == old(start)
                             && length == old(length) && maxLen == old(maxLen))
    {
      hide Sharing, Granted, Sound;
      WindowOf(other, vs);
      var n := if len == 0 then other.length else len;
      GrantedExactly(offs, n, other.length);
      if !Granted(offs, n, other.length) {
        if del { Clear(vs); }
        return n == 0;
      }
      ghost var d := other.storage.data[..];
      SliceOfSlice(d, other.start, other.length, offs, n);
      Adopt(other, offs, n, vs);
      WindowOf(this, vs);
      assert storage.data[..] == d && Elems() == d[start..start + n];
      return true;
    }

    // ---- operations built on the two initialisers ----

    // A new vector that is a window of another one.
    constructor Slice(other: SliceVector, offs: nat, len: nat, ghost vs: set<SliceVector>)
      requires other in vs && Sharing(vs)
      requires offs < LIMIT && len < LIMIT && other.length < LIMIT
      requires Sound(offs, if len == 0 then other.length else len, other.length)
      modifies other.Mine()`refs, other.Mine()`holders
      ensures Sharing(vs + {this})
      ensures var n := if len == 0 then other.length else len;
              if other.Available(offs, n)
              then storage == other.storage && start == other.start + offs && length == n == maxLen
                   && Elems() == other.Elems()[offs..offs + n]
              else storage == null && length == 0
    {
      storage, start, length, maxLen := null, 0, 0, 0;
      new;
      hide Counted, Separate, Zeroed;
      JoinEmpty(this, vs);
      var _ := InitSlice(false, other, offs, len, vs + {this});
    }

    // Assignment is slicing the whole.
    method Assign(other: SliceVector, ghost vs: set<SliceVector>)
      requires this in vs && other in vs && Sharing(vs) && other.length < LIMIT
      modifies this, Mine()`refs, Mine()`holders, other.Mine()`refs, other.Mine()`holders
      ensures Sharing(vs) && Elems() == old(other.Elems())
      ensures old(other.length) > 0 ==> storage == old(other.storage)
    {
      var _ := InitSlice(true, other, 0, 0, vs);
    }

    // The first and the last elements, as windows held by another vector.
    method Head(dest: SliceVector, len: nat, ghost vs: set<SliceVector>) returns (ok: bool)
      requires this in vs && dest in vs && Sharing(vs) && len < LIMIT && length < LIMIT
      modifies dest, dest.Mine()`refs, dest.Mine()`holders, Mine()`refs, Mine()`holders
      ensures Sharing(vs)
      ensures var n := if len == 0 then old(length) else len; // no length means all of it
              if 0 < n <= old(length) then ok && dest.Elems() == old(Elems())[..n]
              else ok == (n == 0) && dest.storage == null && dest.length == 0
    {
      ok := dest.InitSlice(true, this, 0, len, vs);
    }

    method Tail(dest: SliceVector, len: nat, ghost vs: set<SliceVector>) returns (ok: bool)
      requires this in vs && dest in vs && Sharing(vs)
      requires len < LIMIT && length < LIMIT && (len == 0 ==> Sound(length, length, length))
      modifies dest, dest.Mine()`refs, dest.Mine()`holders, Mine()`refs, Mine()`holders
      ensures Sharing(vs)
      ensures 0 < len <= old(length) ==> ok && dest.Elems() == old(Elems())[old(length) - len..]
      ensures !(0 < len <= old(length)) ==>
        ok == (len == 0 && old(length) == 0) && dest.storage == null && dest.length == 0
    {
      if len <= length {
        ghost var n := length;
        ok := dest.InitSlice(true, this, length - len, len, vs);
      } else {
        dest.Clear(vs);
        ok := false;
      }
    }

    // The elements in the window change length only; nothing is moved or cleared.
    method Resize(len: nat, ghost vs: set<SliceVector>) returns (ok: bool)
      requires this in vs && Sharing(vs)
      modifies this`length
      ensures Sharing(vs) && ok == (len <= maxLen) && length == (if ok then len else old(length))
    {
      if len <= maxLen {
        length := len;
        return true;
      }
      return false;
    }

    method ResizeMax(ghost vs: set<SliceVector>)
      requires this in vs && Sharing(vs)
      modifies this`length
      ensures Sharing(vs) && length == maxLen
    {
      var _ := Resize(maxLen, vs);
    }

    method ResetStorage(len: nat, max: nat, ghost vs: set<SliceVector>)
      requires this in vs && Sharing(vs)
      modifies this, Mine()`refs, Mine()`holders
      ensures Sharing(vs) && length == len && maxLen == (if max < len then len else max)
      ensures Elems() == Zeroed(len)
    {
      Clear(vs);
      var ok := InitStorage(len, None, max, vs);
      if ok {
        assert storage.data[..][..len] == Zeroed(len);
      }
    }

    // Copies a run into the storage behind what has been copied there.
    method SetContent(at: nat, ghost front: seq<Element>, run: seq<Element>, ghost vs: set<SliceVector>)
      requires Sharing(vs) && storage != null && |front| + |run| <= storage.data.Length
      requires at == |front| && storage.data[..][..at] == front
      modifies storage.data
      ensures Sharing(vs) && storage.data[..][..|front| + |run|] == front + run
    {
      ghost var d := storage.data[..];
      var _ := storage.Set(run, at);
      Written(d, front, run, storage.data[..]);
    }

    // Fills an empty vector with up to three runs of elements in a storage of its own.
    method Gather(a: seq<Element>, b: seq<Element>, c: seq<Element>, ghost vs: set<SliceVector>)
      requires this in vs && Sharing(vs) && storage == null
      modifies this
      ensures Sharing(vs) && Elems() == a + b + c
      ensures storage != null ==> fresh(storage)
    {
      hide Zeroed, Sharing;
      var ok := InitStorage(|a|, if a != [] then Some(a) else None, |a| + |b| + |c|, vs);
      if ok {
        ResizeMax(vs);
        assert storage.data[..][..|a|] == a;
        SetContent(|a|, a, b, vs);
        SetContent(|a| + |b|, a + b, c, vs);
        assert Elems() == storage.data[..][..|a + b| + |c|];
      } else {
        assert a + b + c == [];
      }
    }

    // New vectors with a storage of their own: the concatenation of two or of three.
    constructor Concat(v1: SliceVector, v2: SliceVector, ghost vs: set<SliceVector>)
      requires v1 in vs && v2 in vs && Sharing(vs) && v1.length + v2.length < LIMIT
      ensures Sharing(vs + {this}) && Elems() == old(v1.Elems() + v2.Elems())
      ensures storage != null ==> fresh(storage)
    {
      storage, start, length, maxLen := null, 0, 0, 0;
      new;
      hide Counted, Separate, Zeroed;
      var a, b := v1.Value(), v2.Value();
      hide Sharing;
      JoinEmpty(this, vs);
      Gather(a, b, [], vs + {this});
    }

    constructor Concat3(v1: SliceVector, v2: SliceVector, v3: SliceVector, ghost vs: set<SliceVector>)
      requires v1 in vs && v2 in vs && v3 in vs && Sharing(vs)
      requires v1.length + v2.length + v3.length < LIMIT
      ensures Sharing(vs + {this}) && Elems() == old(v1.Elems() + v2.Elems() + v3.Elems())
      ensures storage != null ==> fresh(storage)
    {
      storage, start, length, maxLen := null, 0, 0, 0;
      new;
      hide Counted, Separate, Zeroed;
      var a, b, c := v1.Value(), v2.Value(), v3.Value();
      hide Sharing;
      JoinEmpty(this, vs);
      Gather(a, b, c, vs + {this});
    }

    // Adds another vector of the same length element by element.
    method Sum(other: SliceVector) returns (ok: bool)
      requires Window() && other.Window()
      modifies if storage == null then {} else {storage.data}
      ensures ok == (length == other.length)
      ensures !ok && storage != null ==> storage.data[..] == old(storage.data[..])
      ensures ok && length > 0 ==>
        var d, od := storage.data, other.storage.data;
        d[..] == Swept(Plus, old(d[..]), start, d == od, old(od[..]), other.start, length)
      ensures ok && length > 0 && Apart(start, storage.data == other.storage.data, other.start, length) ==>
        var d, od := storage.data, other.storage.data;
        Added(old(d[..]), d[..], start, if d == od then old(d[..]) else old(od[..]), other.start, length)
    {
      hide Added, Subtracted;
      if length != other.length { return false; }
      if length == 0 { return true; }
      var d, od := storage.data, other.storage.data;
      for i := 0 to length
        invariant d != od ==> od[..] == old(od[..])
        invariant d[..] == Swept(Plus, old(d[..]), start, d == od, old(od[..]), other.start, i)
      {
        d[start + i] := Apply(Plus, d[start + i], od[other.start + i]);
      }
      if Apart(start, d == od, other.start, length) {
        SweptNumbers(old(d[..]), start, d == od, old(od[..]), other.start, length);
      }
      return true;
    }

    // Subtracts another vector of the same length element by element.
    method Sub(other: SliceVector) returns (ok: bool)
      requires Window() && other.Window()
      modifies if storage == null then {} else {storage.data}
      ensures ok == (length == other.length)
      ensures !ok && storage != null ==> storage.data[..] == old(storage.data[..])
      ensures ok && length > 0 ==>
        var d, od := storage.data, other.storage.data;
        d[..] == Swept(Minus, old(d[..]), start, d == od, old(od[..]), other.start, length)
      ensures ok && length > 0 && Apart(start, storage.data == other.storage.data, other.start, length) ==>
        var d, od := storage.data, other.storage.data;
        Subtracted(old(d[..]), d[..], start, if d == od then old(d[..]) else old(od[..]), other.start, length)
    {
      hide Added, Subtracted;
      if length != other.length { return false; }
      if length == 0 { return true; }
      var d, od := storage.data, other.storage.data;
      for i := 0 to length
        invariant d != od ==> od[..] == old(od[..])
        invariant d[..] == Swept(Minus, old(d[..]), start, d == od, old(od[..]), other.start, i)
      {
        d[start + i] := Apply(Minus, d[start + i], od[other.start + i]);
      }
      if Apart(start, d == od, other.start, length) {
        SweptNumbers(old(d[..]), start, d == od, old(od[..]), other.start, length);
      }
      return true;
    }

    // The elements as a value.
    function Value(): (s: seq<Element>)
      requires Window()
      reads this, if storage == null then {} else {storage.data}
      ensures s == Elems() && |s| == length
    {
      if storage == null then [] else storage.data[start..start + length]
    }

    // Destruction gives up the reference and leaves the collection.
    method Destroy(ghost vs: set<SliceVector>)
      requires this in vs && Sharing(vs)
      modifies this, Mine()`refs, Mine()`holders
      ensures Sharing(vs - {this})
    {
      Clear(vs);
      LeaveEmpty(this, vs);
    }
  }

  lemma JoinEmpty(v: SliceVector, vs: set<SliceVector>)
    requires Sharing(vs) && v !in vs && v.storage == null && v.Window()
    ensures Sharing(vs + {v})
  {}

  lemma LeaveEmpty(v: SliceVector, vs: set<SliceVector>)
    requires Sharing(vs) && v in vs && v.storage == null
    ensures Sharing(vs - {v})
  {}
}
