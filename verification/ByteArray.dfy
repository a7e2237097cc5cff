/** `ByteArray`: a linked list of fixed-size blocks with a cursor. */
module ByteArrays {
  import opened ByteBlocks

  class Node {
    const ptr: array<byte>
    var next: Node?

    constructor (size: nat)
      ensures next == null && fresh(ptr) && ptr.Length == size
    {
      ptr := new byte[size];
      next := null;
    }
  }

  /** A segment of a block, as handed to readv and writev. */
  datatype Iovec = Iovec(ptr: array<byte>, off: nat, len: nat)

  ghost function BlockArrays(ns: seq<Node>): set<array<byte>> { set i | 0 <= i < |ns| :: ns[i].ptr }

  ghost function Contents(ns: seq<Node>): (r: seq<seq<byte>>)
    reads BlockArrays(ns)
    ensures |r| == |ns| && forall i :: 0 <= i < |ns| ==> r[i] == ns[i].ptr[..]
  {
    if ns == [] then [] else Contents(ns[..|ns| - 1]) + [ns[|ns| - 1].ptr[..]]
  }

  class ByteArray {
    var baseSize: nat
    var position: nat
    var capacity: nat
    var size: nat
    var root: Node
    var cur: Node?
    ghost var nodes: seq<Node>   // the chain from the root
    ghost var at: nat            // the index of the cursor's block

    ghost function Arrays(): set<array<byte>>
      reads this`nodes
    {
      BlockArrays(nodes)
    }

    ghost function NodeAt(i: nat): (n: Node?)
      reads this`nodes
      ensures n == null <==> i >= |nodes|
    {
      if i < |nodes| then nodes[i] else null
    }

    ghost predicate Chain()
      reads this`nodes, this`baseSize, this`root, nodes
    {
      && |nodes| >= 1 && nodes[0] == root && baseSize >= 1
      && (forall i :: 0 <= i < |nodes| ==> nodes[i].next == NodeAt(i + 1))
      && (forall i :: 0 <= i < |nodes| ==> nodes[i].ptr.Length == baseSize)
      && (forall i, j :: 0 <= i < j < |nodes| ==> nodes[i] != nodes[j] && nodes[i].ptr != nodes[j].ptr)
    }

    /** capacity = base × blocks, position ≤ size ≤ capacity, and the cursor is in block position / base,
        null exactly at capacity. */
    ghost predicate Valid()
      reads this, nodes
    {
      && Chain()
      && capacity == Off(baseSize, |nodes|) && position <= size <= capacity
      && CurAt(position)
    }

    ghost predicate CurAt(p: nat)
      reads this`nodes, this`baseSize, this`at, this`cur
    {
      && at <= |nodes| && Off(baseSize, at) <= p
      && cur == NodeAt(at) && (if at < |nodes| then p < Off(baseSize, at) + baseSize else p == Off(baseSize, at))
    }

    ghost function Blocks(): seq<seq<byte>>
      reads this`nodes, Arrays()
    {
      Contents(nodes)
    }

    /** The whole chain as one byte string; its first `size` bytes are the content. */
    ghost function Bytes(): (s: seq<byte>)
      reads this`nodes, Arrays()
    {
      Flatten(Blocks())
    }

    constructor (base: nat)
      requires base >= 1
      ensures Valid() && fresh(nodes) && fresh(Arrays())
      ensures baseSize == base && position == 0 && size == 0 && capacity == base
    {
      baseSize, position, capacity, size := base, 0, base, 0;
      var n := new Node(base);
      root, cur := n, n;
      nodes, at := [n], 0;
      new;
      assert Off(base, 1) == base by { assert Off(base, 0) == 0; }
    }

    lemma ChainFacts()
      requires Chain()
      ensures |nodes| >= 1 && nodes[0] == root && baseSize >= 1
    {
    }

    lemma Linked(i: nat)
      requires Chain() && i < |nodes|
      ensures nodes[i].next == NodeAt(i + 1) && nodes[i].ptr.Length == baseSize
    {
    }

    /** memcpy into block `k`. */
    method CopyIn(a: array<byte>, ghost k: nat, npos: nat, b: seq<byte>)
      requires Chain() && k < |nodes| && a == nodes[k].ptr && npos + |b| <= baseSize
      modifies a
      ensures Blocks() == old(Blocks())[k := Splice(old(Blocks())[k], npos, b)]
    {
      hide Contents;
      forall i | 0 <= i < |b| { a[npos + i] := b[i]; }
      assert a[..] == Splice(old(a[..]), npos, b);
      forall i | 0 <= i < |nodes| && i != k ensures Blocks()[i] == old(Blocks())[i] {
        assert nodes[i].ptr != a;
        assert nodes[i].ptr[..] == old(nodes[i].ptr[..]);
      }
    }

    /** Chained blocks have the length the invariant says. */
    lemma BytesLength()
      requires Chain()
      ensures Uniform(baseSize, Blocks()) && |Blocks()| == |nodes| && |Bytes()| == Off(baseSize, |nodes|)
    {
      FlattenLength(baseSize, Blocks());
    }

    /** One more block at the end of the chain. */
    method AppendBlock(tail: Node) returns (n: Node)
      requires Chain() && nodes[|nodes| - 1] == tail
      modifies this`nodes, this`capacity, tail
      ensures Chain() && nodes == old(nodes) + [n] && n.ptr.Length == baseSize && fresh(n) && fresh(n.ptr)
      ensures capacity == old(capacity) + baseSize
      ensures Blocks() == old(Blocks()) + [n.ptr[..]]
    {
      n := new Node(baseSize);
      tail.next := n;
      nodes := nodes + [n];
      capacity := capacity + baseSize;
      assert Blocks() == old(Blocks()) + [n.ptr[..]];
    }

    /** The loop of `addCapacity`. */
    method Grow(tail: Node, count: nat) returns (first: Node?)
      requires Chain() && nodes[|nodes| - 1] == tail && capacity == Off(baseSize, |nodes|)
      modifies this`nodes, this`capacity, tail
      ensures Chain() && |nodes| == |old(nodes)| + count && capacity == Off(baseSize, |nodes|)
      ensures old(nodes) <= nodes
      ensures (forall i :: |old(nodes)| <= i < |nodes| ==> fresh(nodes[i]) && fresh(nodes[i].ptr))
      ensures first == if count > 0 then nodes[|old(nodes)|] else null
      ensures old(Blocks()) <= Blocks()
    {
      hide Off, Flatten, Blocks, Chain;
      ChainFacts();
      ghost var before, k := Blocks(), |nodes|;
      var tmp := tail;
      first := null;
      for i := 0 to count
        invariant Chain() && |nodes| == k + i && nodes[|nodes| - 1] == tmp && capacity == Off(baseSize, |nodes|)
        invariant old(nodes) <= nodes && (tmp == tail || fresh(tmp))
        invariant forall i :: k <= i < |nodes| ==> fresh(nodes[i]) && fresh(nodes[i].ptr)
        invariant before <= Blocks()
        invariant first == if i > 0 then nodes[k] else null
      {
        OffNext(baseSize, |nodes|);
        tmp := AppendBlock(tmp);
        if first == null { first := tmp; }
      }
    }

    method AddCapacity(len: nat)
      requires Valid()
      modifies this`nodes, this`capacity, this`cur, nodes
      ensures Valid() && len <= capacity - position
      ensures capacity == old(capacity) || capacity - position < len + baseSize
      ensures old(nodes) <= nodes
      ensures (forall i :: |old(nodes)| <= i < |nodes| ==> fresh(nodes[i]) && fresh(nodes[i].ptr))
      ensures old(Bytes()) <= Bytes()
    {
      hide Off, Flatten, Ceil, Chain, Contents;
      ghost var before, k := Blocks(), |nodes|;
      ChainFacts();
      var spare := capacity - position;
      if spare >= len { return; }
      var need := len - spare;
      var count := Ceil(need, baseSize);
      CeilCovers(baseSize, k, need);
      var tmp := LastBlock();
      var first := Grow(tmp, count);
      FlattenPrefix(before, Blocks());
      ghost var grown := Blocks();
      if spare == 0 { cur := first; }
      assert Blocks() == grown;
      OffMonotone(baseSize, at, k);
    }

    method LastBlock() returns (tmp: Node)
      requires Chain()
      ensures tmp == nodes[|nodes| - 1] && Blocks() == old(Blocks())
    {
      tmp := root;
      ghost var i := 0;
      while tmp.next != null
        invariant 0 <= i < |nodes| && tmp == nodes[i]
        decreases |nodes| - i
      {
        tmp := tmp.next;
        i := i + 1;
      }
    }

    /** The cursor's block and the offset in it, when the cursor is before the end. */
    lemma CursorOffset(p: nat)
      requires Chain() && CurAt(p) && p < Off(baseSize, |nodes|)
      ensures at < |nodes| && cur == nodes[at] && cur != null && p % baseSize == p - Off(baseSize, at) < baseSize
      ensures cur.next == NodeAt(at + 1) && cur.ptr.Length == baseSize
      ensures Off(baseSize, at + 1) == Off(baseSize, at) + baseSize <= Off(baseSize, |nodes|)
    {
      hide Off;
      OffDivides(baseSize, at, p);
      OffMonotone(baseSize, at, |nodes|);
      OffNext(baseSize, at);
    }

    /** Copying into a block is writing at that place of the flat string. */
    method Put(a: array<byte>, ghost k: nat, npos: nat, b: seq<byte>)
      requires Chain() && k < |nodes| && a == nodes[k].ptr && npos + |b| <= baseSize
      modifies a
      ensures Off(baseSize, k) + npos + |b| <= |old(Bytes())| == |Bytes()|
      ensures Bytes() == Splice(old(Bytes()), Off(baseSize, k) + npos, b)
    {
      hide Contents, Flatten, Off, Chain, Splice;
      BytesLength();
      ghost var before := Blocks();
      CopyIn(a, k, npos, b);
      FlattenWrite(baseSize, before, k, npos, b);
    }

    /** One memcpy of `write`: copy into the cursor's block and move on, to the next block if this one is full. */
    method Emit(npos: nat, b: seq<byte>)
      requires Chain() && CurAt(position) && position < Off(baseSize, |nodes|)
      requires Off(baseSize, at) + npos == position && 0 < |b| <= baseSize - npos
      modifies this`position, this`cur, this`at, Arrays()
      ensures Chain() && CurAt(position) && position == old(position) + |b|
      ensures npos + |b| == baseSize ==> position == Off(baseSize, at)
      ensures old(position) + |b| <= |old(Bytes())| && Bytes() == Splice(old(Bytes()), old(position), b)
    {
      hide Flatten, Off, Contents, Chain, Splice;
      CursorOffset(position);
      Put(cur.ptr, at, npos, b);
      if cur.ptr.Length == npos + |b| {
        cur := cur.next;
        at := at + 1;
      }
      position := position + |b|;
    }

    /** The loop of `write`. */
    method WriteLoop(buf: seq<byte>)
      requires Chain() && CurAt(position) && 0 < |buf| && position + |buf| <= Off(baseSize, |nodes|)
      modifies this`position, this`cur, this`at, Arrays()
      ensures Chain() && CurAt(position) && position == old(position) + |buf|
      ensures old(position) + |buf| <= |old(Bytes())| && Bytes() == Splice(old(Bytes()), old(position), buf)
    {
      hide Flatten, Off, Contents, Chain, Splice, Blocks;
      BytesLength();
      CursorOffset(position);
      ghost var before, p := Bytes(), position;
      SpliceNothing(before, p);
      var npos := position % baseSize;
      var ncap := cur.ptr.Length - npos;
      var bpos, len := 0, |buf|;
      while len > 0
        invariant 0 <= npos && 0 <= bpos && 0 <= len && bpos + len == |buf|
        invariant Chain() && CurAt(position) && position == p + bpos
        invariant len > 0 ==> Off(baseSize, at) + npos == position && ncap == baseSize - npos > 0
        invariant Bytes() == Splice(before, p, buf[..bpos])
      {
        var n := if ncap >= len then len else ncap;
        Emit(npos, buf[bpos..bpos + n]);
        SpliceTwice(before, p, buf[..bpos], buf[bpos..bpos + n]);
        assert buf[..bpos] + buf[bpos..bpos + n] == buf[..bpos + n];
        bpos, len := bpos + n, len - n;
        if len > 0 {
          CursorOffset(position);
          ncap, npos := cur.ptr.Length, 0;
        }
      }
      assert buf[..bpos] == buf;
    }

    /** What one more block must not disturb: the blocks there were, and the object's identity. */
    twostate predicate Extends()
      reads this, nodes
    {
      && baseSize == old(baseSize) && root == old(root) && old(nodes) <= nodes
      && forall i :: |old(nodes)| <= i < |nodes| ==> fresh(nodes[i]) && fresh(nodes[i].ptr)
    }

    /** The bytes go to the cursor's place of the flat string, which grows if it must; the cursor moves past them. */
    method Write(buf: seq<byte>)
      requires Valid()
      modifies this, nodes, Arrays()
      ensures Valid() && Extends()
      ensures position == old(position) + |buf| && size == Max(old(size), position)
      ensures Wrote(old(Bytes()), old(position), buf, Bytes())
    {
      hide Flatten, Off, Contents, Chain, Splice, Blocks, CurAt, Wrote;
      BytesLength();
      ghost var before := Bytes();
      if |buf| == 0 {
        SpliceNothing(before, position);
        SpliceWrote(before, before, position, buf);
        return;
      }
      AddCapacity(|buf|);
      ghost var grown := Bytes();
      BytesLength();
      WriteLoop(buf);
      SpliceWrote(before, grown, old(position), buf);
      if position > size { size := position; }
    }

    /** One memcpy of `read`. */
    method Take(npos: nat, n: nat) returns (b: seq<byte>)
      requires Chain() && CurAt(position) && position < Off(baseSize, |nodes|)
      requires Off(baseSize, at) + npos == position && 0 < n <= baseSize - npos
      modifies this`position, this`cur, this`at
      ensures Chain() && CurAt(position) && position == old(position) + n
      ensures npos + n == baseSize ==> position == Off(baseSize, at)
      ensures position <= |Bytes()| && Bytes() == old(Bytes()) && b == Bytes()[old(position)..position]
    {
      hide Flatten, Off, Contents, Chain;
      CursorOffset(position);
      BytesLength();
      ghost var before := Blocks();
      FlattenRead(baseSize, before, at, npos, n);
      b := cur.ptr[npos..npos + n];
      if cur.ptr.Length == npos + n {
        cur := cur.next;
        at := at + 1;
      }
      position := position + n;
      assert Blocks() == before;
    }

    /** Throws if fewer bytes are left; otherwise returns them and moves the cursor past them. */
    method Read(len: nat) returns (ok: bool, buf: seq<byte>)
      requires Valid() && (len > 0 || position < capacity)
      modifies this`position, this`cur, this`at
      ensures Valid() && Bytes() == old(Bytes()) && |Bytes()| == capacity
      ensures ok == (len <= old(size - position)) && position == old(position) + if ok then len else 0
      ensures buf == if ok then Bytes()[old(position)..position] else []
    {
      hide Flatten, Off, Contents, Chain, Blocks, CurAt;
      BytesLength();
      if len > size - position { return false, []; }
      ChainFacts();
      CursorOffset(position);
      var npos := position % baseSize;
      var ncap := cur.ptr.Length - npos;
      var left := len;
      ok, buf := true, [];
      ghost var p, before := position, Bytes();
      while left > 0
        invariant 0 <= npos && 0 <= left <= len && position == p + len - left && |buf| == len - left
        invariant Chain() && CurAt(position) && Bytes() == before
        invariant left > 0 ==> Off(baseSize, at) + npos == position && ncap == baseSize - npos > 0
        invariant buf == before[p..position]
      {
        var n := if ncap >= left then left else ncap;
        var b := Take(npos, n);
        buf, left := buf + b, left - n;
        if left > 0 {
          CursorOffset(position);
          ncap, npos := cur.ptr.Length, 0;
        }
      }
    }

    /** Any position up to the capacity; moving past the size extends it over whatever the blocks hold. */
    method SetPosition(p: nat) returns (ok: bool)
      requires Valid()
      modifies this`position, this`size, this`cur, this`at
      ensures Valid() && Bytes() == old(Bytes())
      ensures ok == (p <= capacity)
      ensures if ok then position == p && size == Max(old(size), p) else position == old(position) && size == old(size)
    {
      hide Flatten, Off, Contents, Chain;
      if p > capacity { return false; }
      ghost var before := Blocks();
      position := p;
      if position > size { size := position; }
      assert Blocks() == before;
      Seek(p);
      return true;
    }

    method Seek(p: nat)
      requires Chain() && p <= Off(baseSize, |nodes|)
      modifies this`cur, this`at
      ensures Chain() && CurAt(p) && Blocks() == old(Blocks())
    {
      hide Off, Contents, Chain;
      ChainFacts();
      var pos := p;
      cur, at := root, 0;
      OffStart(baseSize);
      Linked(0);
      while pos > cur.ptr.Length
        invariant at < |nodes| && cur == nodes[at] && cur != null && cur.ptr.Length == baseSize
        invariant 0 <= pos && Off(baseSize, at) + pos == p
      {
        OffNext(baseSize, at);
        OffMonotone(baseSize, at + 1, |nodes|);
        Linked(at);
        pos := pos - cur.ptr.Length;
        cur := cur.next;
        at := at + 1;
        Linked(at);
      }
      OffNext(baseSize, at);
      Linked(at);
      if pos == cur.ptr.Length {
        cur := cur.next;
        at := at + 1;
      }
    }

    /** Back to one block: nothing to read, the cursor at the start. */
    method Clear()
      requires Valid()
      modifies this, root
      ensures Valid() && baseSize == old(baseSize) && root == old(root) && nodes == [root]
      ensures position == 0 && size == 0 && capacity == baseSize && Bytes() == old(Bytes())[..baseSize]
    {
      hide Flatten, Contents, Off, Blocks;
      FirstBlock();
      position, size, capacity := 0, 0, baseSize;
      cur := root;
      root.next := null;
      nodes, at := [root], 0;
      FirstBlock();
      BytesLength();
    }

    lemma FirstBlock()
      requires Chain()
      ensures |Bytes()| >= baseSize && Bytes()[..baseSize] == root.ptr[..]
      ensures Off(baseSize, 1) == baseSize && Off(baseSize, 0) == 0
    {
      hide Flatten, Contents;
      OffNext(baseSize, 0);
      FlattenAt(baseSize, Blocks(), 0);
    }

    // ---------- scatter and gather ----------

    /** The segment lies inside block `k` and starts at `p` of the flat string. */
    ghost predicate SegmentIn(s: Iovec, p: nat, k: nat)
      requires k < |nodes|
      reads this`nodes, this`baseSize
    {
      s.ptr == nodes[k].ptr && s.off + s.len <= baseSize && Off(baseSize, k) + s.off == p
    }

    /** A segment lies inside one block and starts at `p` of the flat string. */
    ghost predicate StartsAt(s: Iovec, p: nat)
      reads this`nodes, this`baseSize
    {
      exists k :: 0 <= k < |nodes| && SegmentIn(s, p, k)
    }

    /** The segments, in order, are the flat string from `p` to `q`. */
    ghost predicate Covers(segs: seq<Iovec>, p: nat, q: nat)
      reads this`nodes, this`baseSize
      decreases |segs|
    {
      if segs == [] then p == q else StartsAt(segs[0], p) && Covers(segs[1..], p + segs[0].len, q)
    }

    lemma {:induction false} CoversMore(segs: seq<Iovec>, p: nat, q: nat, s: Iovec)
      requires Covers(segs, p, q) && StartsAt(s, q)
      ensures Covers(segs + [s], p, q + s.len)
      decreases |segs|
    {
      if segs != [] {
        CoversMore(segs[1..], p + segs[0].len, q, s);
        assert (segs + [s])[1..] == segs[1..] + [s];
      } else {
        assert ([s])[1..] == [];
        assert segs + [s] == [s];
      }
    }

    /** The loop shared by getReadBuffers and getWriteBuffers: segments for the next `total` bytes. */
    method Segments(total: nat) returns (segs: seq<Iovec>)
      requires Chain() && CurAt(position) && 0 < total && position + total <= Off(baseSize, |nodes|)
      ensures Covers(segs, position, position + total) && Blocks() == old(Blocks())
    {
      hide Off, Chain, Covers, StartsAt;
      ChainFacts();
      CursorOffset(position);
      var npos := position % baseSize;
      var ncap := cur.ptr.Length - npos;
      var c, len := cur, total;
      ghost var k: nat, p: nat := at, position;
      segs := [];
      assert Covers(segs, p, p) by { CoversNothing(p); }
      while len > 0
        invariant 0 <= len && 0 <= npos && p + len == position + total && Covers(segs, position, p)
        invariant len > 0 ==> k < |nodes| && c == nodes[k] && c != null && ncap == baseSize - npos > 0
        invariant len > 0 ==> Off(baseSize, k) + npos == p
      {
        var n := if ncap >= len then len else ncap;
        var s := Iovec(c.ptr, npos, n);
        SegmentAt(k, npos, n);
        CoversMore(segs, position, p, s);
        segs, len, p := segs + [s], len - n, p + n;
        if len > 0 {
          OffNext(baseSize, k);
          OffReaches(baseSize, k + 1, |nodes|);
          Linked(k);
          Linked(k + 1);
          c, k := c.next, k + 1;
          ncap, npos := c.ptr.Length, 0;
        }
      }
    }

    lemma CoversNothing(p: nat)
      ensures Covers([], p, p)
    {
    }

    lemma SegmentAt(k: nat, off: nat, n: nat)
      requires k < |nodes| && off + n <= baseSize
      ensures StartsAt(Iovec(nodes[k].ptr, off, n), Off(baseSize, k) + off)
    {
      assert SegmentIn(Iovec(nodes[k].ptr, off, n), Off(baseSize, k) + off, k);
    }

    /** What the segments hold is that part of the flat string. */
    lemma {:induction false} Gathers(segs: seq<Iovec>, p: nat, q: nat)
      requires Chain() && Covers(segs, p, q)
      ensures p <= q && (segs != [] ==> q <= |Bytes()|) && InBounds(segs)
      ensures q <= |Bytes()| ==> Gather(segs) == Bytes()[p..q]
      decreases |segs|
    {
      hide Flatten, Contents, Off, Blocks, Chain;
      BytesLength();
      if segs != [] {
        Gathers(segs[1..], p + segs[0].len, q);
        var k :| 0 <= k < |nodes| && SegmentIn(segs[0], p, k);
        ReadAt(k, segs[0].off, segs[0].len);
      }
    }

    /** The readable bytes up to `len`, in place: nothing changes. */
    method GetReadBuffers(len: nat) returns (n: nat, segs: seq<Iovec>)
      requires Valid()
      ensures n == Min(len, size - position) && Covers(segs, position, position + n)
      ensures position + n <= |Bytes()| && InBounds(segs) && Gather(segs) == Bytes()[position..position + n]
    {
      hide Off, Chain, Covers, Blocks, CurAt;
      BytesLength();
      n := if len > size - position then size - position else len;
      if n == 0 {
        segs := [];
        CoversNothing(position);
      } else {
        segs := Segments(n);
      }
      Gathers(segs, position, position + n);
    }

    /** Room for `len` bytes at the cursor, in place: the flat string may grow, its bytes and the cursor stay. */
    method GetWriteBuffers(len: nat) returns (segs: seq<Iovec>)
      requires Valid()
      modifies this`nodes, this`capacity, this`cur, nodes
      ensures Valid() && Extends() && position == old(position) && size == old(size) && position + len <= capacity
      ensures capacity == old(capacity) || capacity - position < len + baseSize
      ensures old(Bytes()) <= Bytes() && Covers(segs, position, position + len)
    {
      hide Off, Chain, Covers, Blocks, CurAt;
      if len == 0 {
        CoversNothing(position);
        return [];
      }
      AddCapacity(len);
      segs := Segments(len);
    }

    /** What readv does: `data` goes into the segments, in order. */
    method Scatter(segs: seq<Iovec>, data: seq<byte>, ghost p: nat, ghost q: nat)
      requires Chain() && Covers(segs, p, q) && p + |data| <= q <= |Bytes()|
      modifies Arrays()
      ensures Chain() && Bytes() == Splice(old(Bytes()), p, data)
      decreases |segs|
    {
      hide Off, Chain, Blocks, Splice, Flatten, Contents;
      SpliceNothing(Bytes(), p);
      if data == [] || segs == [] { return; }
      var s := segs[0];
      ghost var k :| 0 <= k < |nodes| && SegmentIn(s, p, k);
      var n := if s.len < |data| then s.len else |data|;
      ghost var before := Bytes();
      Put(s.ptr, k, s.off, data[..n]);
      assert data == data[..n] + data[n..];
      if n < |data| {
        Scatter(segs[1..], data[n..], p + n, q);
        SpliceTwice(before, p, data[..n], data[n..]);
      } else {
        assert data[..n] == data;
      }
    }

    /** The readable bytes; nothing changes. */
    method ToString() returns (str: seq<byte>)
      requires Valid()
      ensures size <= |Bytes()| && str == Bytes()[position..size]
    {
      hide Off, Chain, Bytes, CurAt;
      BytesLength();
      ghost var all := Bytes();
      var left := size - position;
      str := [];
      if left == 0 { return; }
      ChainFacts();
      CursorOffset(position);
      var npos := position % baseSize;
      var ncap := cur.ptr.Length - npos;
      var c := cur;
      ghost var k: nat, p: nat := at, position;
      while left > 0
        invariant 0 <= left && 0 <= npos && p + left == size && position <= p && str == all[position..p]
        invariant Bytes() == all && Chain()
        invariant left > 0 ==> k < |nodes| && c == nodes[k] && c != null && ncap == baseSize - npos > 0
        invariant left > 0 ==> Off(baseSize, k) + npos == p
      {
        var n := if ncap >= left then left else ncap;
        ReadAt(k, npos, n);
        SliceJoin(all, position, p, p + n);
        str, left, p := str + c.ptr[npos..npos + n], left - n, p + n;
        if left > 0 {
          OffNext(baseSize, k);
          OffReaches(baseSize, k + 1, |nodes|);
          Linked(k);
          Linked(k + 1);
          c, k := c.next, k + 1;
          ncap, npos := c.ptr.Length, 0;
        }
      }
    }

    lemma ReadAt(k: nat, off: nat, n: nat)
      requires Chain() && k < |nodes| && off + n <= baseSize
      ensures nodes[k].ptr.Length == baseSize && Off(baseSize, k) + off + n <= |Bytes()|
      ensures nodes[k].ptr[off..off + n] == Bytes()[Off(baseSize, k) + off..Off(baseSize, k) + off + n]
    {
      hide Off, Flatten, Contents;
      BytesLength();
      FlattenRead(baseSize, Blocks(), k, off, n);
    }

    /** The invariant in the terms of the fields alone. */
    lemma CursorMeaning()
      requires Valid()
      ensures capacity == |nodes| * baseSize && |Bytes()| == capacity && position <= size <= capacity
      ensures cur == null <==> position == capacity
      ensures baseSize >= 1 && (position < capacity ==> at == position / baseSize && cur == NodeAt(at))
    {
      hide Off, Flatten;
      BytesLength();
      OffIsProduct(baseSize, |nodes|);
      if position < capacity {
        CursorOffset(position);
        OffDivides(baseSize, at, position);
      } else if at < |nodes| {
        OffMonotone(baseSize, at, |nodes|);
      }
    }
  }

  predicate InBounds(segs: seq<Iovec>) {
    forall i :: 0 <= i < |segs| ==> segs[i].off + segs[i].len <= segs[i].ptr.Length
  }

  /** What the segments hold, in order. */
  ghost function Gather(segs: seq<Iovec>): seq<byte>
    requires InBounds(segs)
    reads set i | 0 <= i < |segs| :: segs[i].ptr
  {
    if segs == [] then [] else segs[0].ptr[segs[0].off..segs[0].off + segs[0].len] + Gather(segs[1..])
  }

  function Min(a: int, b: int): int { if a < b then a else b }

  function Max(a: int, b: int): int { if a < b then b else a }
}
