/** The heap-allocated doubly linked list of linked.cpp, on which every table of the
    controller is kept: append at the tail, remove the first equal payload, free backwards,
    and one cursor walked by `GetObject`. */
module ObjectLists {

  class Node<T> {
    var p: T
    var next: Node?<T>
    var prev: Node?<T>

    /** The payload of a fresh object is whatever the allocator returned. */
    constructor (payload: T)
      ensures p == payload && next == null && prev == null
    {
      p, next, prev := payload, null, null;
    }
  }

  // ----- What the list operations do to the sequence of payloads -----

  function RemoveFirst<T(==)>(s: seq<T>, x: T): (r: seq<T>)
    ensures x !in s ==> r == s
  {
    if s == [] then []
    else if s[0] == x then s[1..]
    else [s[0]] + RemoveFirst(s[1..], x)
  }

  lemma {:induction false} RemoveFirstAt<T>(s: seq<T>, x: T, i: nat)
    requires i < |s| && s[i] == x && x !in s[..i]
    ensures RemoveFirst(s, x) == s[..i] + s[i + 1..]
  {
    if i == 0 {
    } else {
      assert s[0] == s[..i][0] && s[1..][..i - 1] == s[..i][1..];
      RemoveFirstAt(s[1..], x, i - 1);
    }
  }

  // ----- The cursor as a position: -1 stands for null -----

  function NextPos(n: nat, pos: int): int {
    if pos + 1 < n then pos + 1 else -1
  }

  function PosAfter(n: nat, gets: nat): int {
    if gets == 0 then -1 else NextPos(n, PosAfter(n, gets - 1))
  }

  /** After a rewind, the k-th `GetObject` (from 0) lands on item k mod (n+1), or on null when
      that is n: the cursor cycles through the n items and null for ever. */
  lemma {:induction false} CursorLaw(n: nat, k: nat)
    ensures PosAfter(n, k + 1) == if k % (n + 1) == n then -1 else k % (n + 1)
  {
    if k == 0 {
    } else {
      CursorLaw(n, k - 1);
      NextResidue(k - 1, n + 1);
    }
  }

  lemma NextResidue(k: nat, m: nat)
    requires m > 0
    ensures (k + 1) % m == if k % m == m - 1 then 0 else k % m + 1
  {
    if k % m == m - 1 {
      Divides(k + 1, m, k / m + 1, 0);
    } else {
      Divides(k + 1, m, k / m, k % m + 1);
    }
  }

  lemma AbsBelow(m: nat, d: int)
    requires 0 - m < m * d < m
    ensures d == 0
  {
  }

  /** Quotient and remainder are unique. */
  lemma Divides(k: nat, m: nat, q: nat, r: nat)
    requires r < m && k == m * q + r
    ensures k % m == r
  {
    var d := k / m - q;
    assert m * (k / m) + k % m == m * q + r;
    assert m * d == r - k % m by {
      assert m * d == m * (k / m) - m * q;
    }
    AbsBelow(m, d);
  }

  class ObjectList<T(==)> {
    var first: Node?<T>
    var current: Node?<T>
    var last: Node?<T>
    ghost var nodes: seq<Node<T>>
    ghost var contents: seq<T>

    /** `nodes` lists the live nodes in `next` order; `prev` is the inverse, the ends are null.
        `contents` lists their payloads. */
    ghost predicate Valid()
      reads this`first, this`last, this`nodes, this`contents, nodes
    {
      && |contents| == |nodes| && (forall i :: 0 <= i < |nodes| ==> nodes[i].p == contents[i])
      && (forall i, j :: 0 <= i < j < |nodes| ==> nodes[i] != nodes[j])
      && first == NodeAt(0)
      && last == NodeAt(|nodes| - 1)
      && (forall i {:trigger nodes[i].next} :: 0 <= i < |nodes| ==> nodes[i].next == NodeAt(i + 1))
      && (forall i {:trigger nodes[i].prev} :: 0 <= i < |nodes| ==> nodes[i].prev == NodeAt(i - 1))
    }

    /** Every node is an old one of this list or newly allocated. */
    twostate predicate Grown()
      reads this`nodes
    {
      forall i :: 0 <= i < |nodes| ==> nodes[i] in old(nodes) || fresh(nodes[i])
    }

    /** The node at a position, null on either side of the list. */
    ghost function NodeAt(i: int): Node?<T>
      reads this`nodes
    {
      ItemAt(nodes, i)
    }

    static ghost function ItemAt(ns: seq<Node<T>>, i: int): Node?<T> {
      if 0 <= i < |ns| then ns[i] else null
    }

    /** The cursor is null or on a live node.  `FreeList` and `RemoveObject` do not see to this. */
    ghost predicate CursorLive()
      reads this`current, this`nodes
    {
      current == null || current in nodes
    }

    /** The cursor stands on item `pos`, or on null for -1. */
    ghost predicate CursorAt(pos: int)
      reads this`current, this`nodes
    {
      -1 <= pos < |nodes| && current == NodeAt(pos)
    }

    constructor ()
      ensures Valid() && nodes == [] && contents == [] && current == null
    {
      first, current, last, nodes, contents := null, null, null, [], [];
    }

    /** The caller fills the payload in through the returned pointer; `payload` is what it holds
        until then. */
    method AddObject(payload: T) returns (n: Node<T>)
      requires Valid()
      modifies this, last
      ensures Valid() && fresh(n)
      ensures nodes == old(nodes) + [n] && contents == old(contents) + [payload]
      ensures current == old(current)
    {
      n := new Node(payload);
      if first == null {
        first := n;
        last := first;
      } else {
        n.prev := last;
        last.next := n;
        last := n;
      }
      nodes, contents := nodes + [n], contents + [payload];
    }

    method GetListSize() returns (s: int)
      requires Valid()
      ensures s == if nodes == [] then 0xffff_ffff else |nodes| % 0x1_0000_0000
    {
      s := 0;
      var tmp := first;
      if tmp == null {
        return -1 % 0x1_0000_0000;
      }
      ghost var i := 0;
      while tmp != null
        invariant 0 <= i <= |nodes| && s == i % 0x1_0000_0000
        invariant tmp == NodeAt(i)
        decreases |nodes| - i
      {
        s := (s + 1) % 0x1_0000_0000;
        tmp := tmp.next;
        i := i + 1;
      }
    }

    /** Walks `prev` from the tail, unlinking every node that `next` reaches, each once. */
    method FreeList() returns (count: int)
      requires Valid()
      modifies this, nodes
      ensures Valid() && nodes == [] && contents == []
      ensures current == old(current)
      ensures count == if old(nodes) == [] then -1 else |old(nodes)|
      ensures forall n :: n in old(nodes) ==> n.next == null && n.prev == null
    {
      count := 0;
      var tmp := last;
      if tmp == null {
        return -1;
      }
      while tmp != null
        invariant 0 <= count <= |nodes| && nodes == old(nodes) && current == old(current)
        invariant forall i, j :: 0 <= i < j < |nodes| ==> nodes[i] != nodes[j]
        invariant tmp == NodeAt(|nodes| - 1 - count)
        invariant forall i {:trigger nodes[i].prev} :: 0 <= i < |nodes| - count ==> nodes[i].prev == NodeAt(i - 1)
        invariant forall i :: |nodes| - count <= i < |nodes| ==> nodes[i].next == null && nodes[i].prev == null
        decreases |nodes| - count
      {
        var prev := tmp.prev;
        FreeNode(tmp, count);
        tmp := prev;
        count := count + 1;
      }
      last := null;
      first := null;
      nodes, contents := [], [];
    }

    /** The node `count` places from the tail is unlinked, and no other is touched. */
    method FreeNode(tmp: Node<T>, ghost count: nat)
      requires count < |nodes| && tmp == nodes[|nodes| - 1 - count]
      modifies tmp
      ensures tmp.next == null && tmp.prev == null
    {
      tmp.prev := null;
      tmp.next := null;
    }

    method RemoveObject(ob: T) returns (r: int)
      requires Valid()
      modifies this, nodes
      ensures Valid()
      ensures r == if old(nodes) == [] then -1 else 0
      ensures contents == RemoveFirst(old(contents), ob)
      ensures current == old(current)
    {
      var tmp := first;
      if tmp == null {
        return -1;
      }
      ghost var i := 0;
      while tmp != null
        invariant 0 <= i <= |nodes| && tmp == NodeAt(i) && ob !in contents[..i]
        modifies {}
        decreases |nodes| - i
      {
        if tmp.p == ob {
          break;
        }
        tmp := tmp.next;
        i := i + 1;
      }
      if tmp != null {
        RemoveFirstAt(contents, ob, i);
        Unlink(tmp, i);
      } else {
        assert contents[..i] == contents;
      }
      return 0;
    }

    /** The four unlink cases: only node, head, tail, interior. */
    method Unlink(tmp: Node<T>, ghost i: nat)
      requires Valid() && i < |nodes| && nodes[i] == tmp
      modifies this, nodes
      ensures Valid()
      ensures nodes == old(nodes)[..i] + old(nodes)[i + 1..]
      ensures contents == old(contents)[..i] + old(contents)[i + 1..]
      ensures current == old(current)
      ensures tmp.next == null && tmp.prev == null
    {
      ghost var ns, c := nodes, contents;
      var next, prev := tmp.next, tmp.prev;
      assert next == NodeAt(i + 1) && prev == NodeAt(i - 1);
      if tmp == first && tmp == last {
        first := null;
        last := null;
      } else if tmp == first {
        assert next == ns[1] && ns[1].prev == NodeAt(0);
        first := next;
        first.prev := null;
      } else if tmp == last {
        assert prev == ns[i - 1];
        last := prev;
        last.next := null;
      } else {
        assert prev == ns[i - 1] && next == ns[i + 1];
        next.prev := prev;
        prev.next := next;
      }
      tmp.next := null;
      tmp.prev := null;
      nodes, contents := ns[..i] + ns[i + 1..], c[..i] + c[i + 1..];
      Spliced(ns, c, i);
    }

    /** Skipping node `i` in both directions leaves a well-formed list of the others. */
    lemma Spliced(ns: seq<Node<T>>, c: seq<T>, i: nat)
      requires i < |ns| == |c| && nodes == ns[..i] + ns[i + 1..] && contents == c[..i] + c[i + 1..]
      requires forall k :: 0 <= k < |ns| ==> ns[k].p == c[k]
      requires forall i, j :: 0 <= i < j < |ns| ==> ns[i] != ns[j]
      requires first == NodeAt(0) && last == NodeAt(|nodes| - 1)
      requires forall k {:trigger ns[k].next} :: 0 <= k < |ns| && k != i ==>
        ns[k].next == if k + 1 == i then ItemAt(ns, i + 1) else ItemAt(ns, k + 1)
      requires forall k {:trigger ns[k].prev} :: 0 <= k < |ns| && k != i ==>
        ns[k].prev == if k - 1 == i then ItemAt(ns, i - 1) else ItemAt(ns, k - 1)
      ensures Valid()
    {
      forall j | 0 <= j < |nodes|
        ensures nodes[j].next == NodeAt(j + 1) && nodes[j].prev == NodeAt(j - 1)
      {
        var k := if j < i then j else j + 1;
        assert nodes[j] == ns[k] && ns[k].next == ns[k].next && ns[k].prev == ns[k].prev;
      }
    }

    /** The C++ code steps from `current` without asking whether its node was freed, so
        `CursorLive()` is what keeps it from reading freed memory. */
    method GetObject() returns (n: Node?<T>)
      requires Valid() && CursorLive()
      modifies this`current
      ensures CursorLive() && n == current
      ensures forall pos :: old(CursorAt(pos)) ==> CursorAt(NextPos(|nodes|, pos))
    {
      if current == null {
        current := first;
      } else {
        ghost var i :| 0 <= i < |nodes| && nodes[i] == current;
        current := current.next;
      }
      n := current;
    }

    method ListRewind()
      modifies this`current
      ensures current == null
    {
      current := null;
    }

    /** The cursor law over real calls: after a rewind, `GetObject` number k (from 0) answers item
        k mod (n+1), which is null when that is n. */
    method GetNth(k: nat) returns (n: Node?<T>)
      requires Valid()
      modifies this`current
      ensures n == NodeAt(k % (|nodes| + 1)) && CursorLive()
    {
      ListRewind();
      assert CursorAt(PosAfter(|nodes|, 0));
      n := GetObject();
      for i := 0 to k
        invariant CursorLive() && n == current && CursorAt(PosAfter(|nodes|, i + 1))
      {
        assert NextPos(|nodes|, PosAfter(|nodes|, i + 1)) == PosAfter(|nodes|, i + 2);
        n := GetObject();
      }
      CursorLaw(|nodes|, k);
    }

    /** One call in a scan that stands on item `at`. */
    method Next(ghost at: int) returns (n: Node?<T>)
      requires Valid() && CursorAt(at)
      modifies this`current
      ensures n == NodeAt(at + 1) && n == current && (n == null <==> at + 1 == |nodes|)
      ensures n != null ==> CursorAt(at + 1)
    {
      n := GetObject();
    }

    static lemma SliceStep(ns: seq<Node<T>>, seen: seq<Node<T>>, lo: nat, at: nat)
      requires lo <= at < |ns| && seen == ns[lo..at]
      ensures seen + [ns[at]] == ns[lo..at + 1]
    {
    }

    static lemma SliceEnd(ns: seq<Node<T>>, lo: nat)
      requires lo <= |ns|
      ensures ns[lo..|ns|] == ns[lo..]
    {
    }

    static lemma SliceAppend(ns: seq<Node<T>>, n: Node<T>, lo: nat)
      requires lo <= |ns|
      ensures (ns + [n])[lo..] == ns[lo..] + [n]
    {
    }

    lemma LastPayload()
      requires Valid() && nodes != []
      ensures nodes[|nodes| - 1].p == contents[|nodes| - 1]
    {
    }

    /** What a scan under way still has to see: the items behind the cursor, then null. */
    method FinishScan(ghost pos: int) returns (seen: seq<Node<T>>)
      requires Valid() && CursorAt(pos)
      modifies this`current
      ensures seen == nodes[pos + 1..] && current == null
    {
      hide Valid;
      seen := [];
      ghost var at := pos;
      var n := Next(at);
      while n != null
        invariant pos <= at < |nodes| && seen == nodes[pos + 1..at + 1]
        invariant n == NodeAt(at + 1) && n == current && (n == null <==> at + 1 == |nodes|)
        invariant n != null ==> CursorAt(at + 1)
        decreases |nodes| - at
      {
        SliceStep(nodes, seen, pos + 1, at + 1);
        seen := seen + [n];
        at := at + 1;
        n := Next(at);
      }
      SliceEnd(nodes, pos + 1);
    }

    /** An object appended while a scan is at item `pos` (or has not begun) is the last thing
        that scan sees. */
    method AppendDuringScan(payload: T, ghost pos: int) returns (n: Node<T>, seen: seq<Node<T>>)
      requires Valid() && CursorAt(pos)
      modifies this, last
      ensures Valid() && current == null && n.p == payload
      ensures nodes == old(nodes) + [n] && contents == old(contents) + [payload]
      ensures seen == old(nodes)[pos + 1..] + [n]
    {
      hide Valid;
      n := AddObject(payload);
      LastPayload();
      SliceAppend(old(nodes), n, pos + 1);
      seen := FinishScan(pos);
    }
  }
}
