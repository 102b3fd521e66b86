/** Singly linked lists: the tortoise-and-hare cycle test and reversal in place,
    on any finite heap. */
module LinkedList {
  import opened FiniteSets

  class Node {
    var data: int
    var next: Node?
  }

  /** The next pointers of the nodes in a set, taken at one moment. */
  type Links = map<Node, Node?>

  ghost function LinksOf(nodes: set<Node>): (m: Links)
    reads nodes
    ensures m.Keys == nodes && forall n :: n in nodes ==> m[n] == n.next
  {
    map n | n in nodes :: n.next
  }

  ghost predicate Closed(m: Links) {
    forall n :: n in m ==> m[n] == null || m[n] in m
  }

  /** Where k steps from n lead; null stays null. */
  ghost function Hop(m: Links, n: Node?, k: nat): Node?
    requires Closed(m) && (n == null || n in m)
    ensures var r := Hop(m, n, k); r == null || r in m
  {
    if n == null || k == 0 then n else Hop(m, m[n], k - 1)
  }

  lemma {:induction false} HopAdds(m: Links, n: Node?, j: nat, k: nat)
    requires Closed(m) && (n == null || n in m)
    ensures Hop(m, Hop(m, n, j), k) == Hop(m, n, j + k)
  {
    if n != null && j > 0 {
      HopAdds(m, m[n], j - 1, k);
    }
  }

  lemma {:induction false} HopOnce(m: Links, n: Node?, k: nat)
    requires Closed(m) && (n == null || n in m)
    ensures var r := Hop(m, n, k); Hop(m, n, k + 1) == if r == null then null else m[r]
  {
    HopAdds(m, n, k, 1);
    var r := Hop(m, n, k);
    if r != null { assert Hop(m, r, 1) == Hop(m, m[r], 0); }
  }

  /** Once the walk has come back to where it was j steps before, it repeats. */
  lemma {:induction false} Laps(m: Links, n: Node?, start: nat, lap: nat, k: nat, laps: nat)
    requires Closed(m) && (n == null || n in m)
    requires Hop(m, n, start) == Hop(m, n, start + lap) && start <= k
    ensures Hop(m, n, k) == Hop(m, n, k + laps * lap)
    decreases laps
  {
    if laps > 0 {
      Laps(m, n, start, lap, k, laps - 1);
      var far := k + (laps - 1) * lap;
      assert far >= start;
      HopAdds(m, n, start, far - start);
      HopAdds(m, n, start + lap, far - start);
      assert far + lap == k + laps * lap;
    }
  }

  /** The list ends: following next from head reaches null. */
  ghost predicate Ends(m: Links, head: Node?)
    requires Closed(m) && (head == null || head in m)
  {
    exists k: nat :: Hop(m, head, k) == null
  }

  /** Meeting on a node after a positive number of rounds proves a cycle. */
  lemma MeetingMeansCycle(m: Links, head: Node?, i: nat)
    requires Closed(m) && (head == null || head in m)
    requires i > 0 && Hop(m, head, i) == Hop(m, head, 2 * i) != null
    ensures !Ends(m, head)
  {
    if k: nat :| Hop(m, head, k) == null {
      Laps(m, head, i, i, i, k);
      assert i + k * i >= k by { TimesAtLeast(k, i); }
      HopAdds(m, head, k, i + k * i - k);
    }
  }

  lemma TimesAtLeast(k: nat, i: nat)
    requires i > 0
    ensures k * i >= k
  {
  }

  ghost predicate NoRepeat<T>(s: seq<T>) {
    forall i, j :: 0 <= i < j < |s| ==> s[i] != s[j]
  }

  ghost function Elements<T>(s: seq<T>): set<T> {
    set x | x in s
  }

  lemma {:induction false} DistinctCount<T>(s: seq<T>)
    requires NoRepeat(s)
    ensures |Elements(s)| == |s|
  {
    if s == [] {
      assert Elements(s) == {};
    } else {
      var t := s[..|s| - 1];
      DistinctCount(t);
      assert s == t + [s[|s| - 1]];
      assert Elements(s) == Elements(t) + {s[|s| - 1]};
    }
  }

  /** A walk of more steps than there are nodes has hit null or a node twice. */
  lemma Pigeonhole(m: Links, head: Node?) returns (i: nat, j: nat)
    requires Closed(m) && (head == null || head in m)
    requires forall k: nat :: k <= |m| ==> Hop(m, head, k) != null
    ensures i < j <= |m| && Hop(m, head, i) == Hop(m, head, j)
  {
    var walk: seq<Node?> := seq(|m| + 1, k requires 0 <= k <= |m| => Hop(m, head, k));
    assert Elements(walk) <= m.Keys;
    if NoRepeat(walk) {
      DistinctCount(walk);
      SubsetSize(Elements(walk), m.Keys);
    }
    i, j :| 0 <= i < j < |walk| && walk[i] == walk[j];
  }

  /** The least positive multiple of lap that is at least start. */
  lemma {:induction false} NextMultiple(start: nat, lap: nat) returns (laps: nat)
    requires lap > 0
    ensures laps > 0 && start <= laps * lap <= start + lap
  {
    if start == 0 {
      laps := 1;
    } else {
      laps := NextMultiple(start - 1, lap);
      if laps * lap < start {
        laps := laps + 1;
      }
    }
  }

  /** Within as many rounds as there are nodes, tortoise and hare stand on the
      same node or both at the end. */
  lemma TheyMeet(m: Links, head: Node?) returns (i: nat)
    requires Closed(m) && head in m
    ensures 1 <= i <= |m| && Hop(m, head, i) == Hop(m, head, 2 * i)
  {
    if k: nat :| k <= |m| && Hop(m, head, k) == null {
      i := k;
      HopAdds(m, head, k, k);
    } else {
      var a, b := Pigeonhole(m, head);
      var laps := NextMultiple(a, b - a);
      i := laps * (b - a);
      Laps(m, head, a, b - a, i, laps);
    }
  }

  /** has_cycle / has_loop: true exactly when the list never reaches null, after
      at most one round per node. */
  method HasCycle(head: Node?, ghost nodes: set<Node>) returns (cycle: bool, ghost rounds: nat)
    requires Closed(LinksOf(nodes)) && (head == null || head in nodes)
    ensures cycle <==> !Ends(LinksOf(nodes), head)
    ensures rounds <= |nodes|
  {
    ghost var m := LinksOf(nodes);
    var slow, fast := head, head;
    rounds := 0;
    ghost var meet := 0;
    if head != null {
      meet := TheyMeet(m, head);
      SubsetSize(m.Keys, nodes);
    }
    while fast != null && fast.next != null
      invariant slow == Hop(m, head, rounds) && fast == Hop(m, head, 2 * rounds)
      invariant forall i: nat :: 1 <= i <= rounds ==> Hop(m, head, i) != Hop(m, head, 2 * i)
      invariant head != null ==> rounds < meet
      invariant head == null ==> rounds == 0
      decreases meet - rounds
    {
      HopOnce(m, head, rounds);
      HopOnce(m, head, 2 * rounds);
      HopOnce(m, head, 2 * rounds + 1);
      HopAdds(m, head, rounds + 1, rounds);
      slow := slow.next;
      fast := fast.next.next;
      rounds := rounds + 1;
      if slow == fast {
        MeetingMeansCycle(m, head, rounds);
        return true, rounds;
      }
    }
    HopOnce(m, head, 2 * rounds);
    return false, rounds;
  }

  // ---------------------------------------------------------------- reversal

  /** The nodes from head on, in order, each once: the last one points to null
      (back = -1) or back to p[back]. */
  ghost predicate IsTrail(head: Node?, p: seq<Node>, back: int)
    reads p
  {
    && NoRepeat(p) && -1 <= back && (back < |p| || back == -1)
    && head == (if p == [] then null else p[0])
    && forall k {:trigger Link(p, back, k)} :: 0 <= k < |p| ==> p[k].next == Link(p, back, k)
  }

  ghost function Link(p: seq<Node>, back: int, k: nat): Node?
    requires k < |p| && -1 <= back < |p|
  {
    if k + 1 < |p| then p[k + 1] else if back == -1 then null else p[back]
  }

  lemma OneFurther(sofar: seq<Node>, end: Node, nodes: set<Node>)
    requires NoRepeat(sofar) && Elements(sofar) <= nodes && end in nodes && end !in sofar
    ensures NoRepeat(sofar + [end]) && Elements(sofar + [end]) <= nodes && |sofar| < |nodes|
  {
    assert Elements(sofar + [end]) == Elements(sofar) + {end};
    DistinctCount(sofar + [end]);
    SubsetSize(Elements(sofar + [end]), nodes);
  }

  /** Every list in a finite heap has a trail, ending or not. */
  lemma {:induction false} TrailExists(head: Node?, nodes: set<Node>, sofar: seq<Node>) returns (p: seq<Node>, back: int)
    requires Closed(LinksOf(nodes)) && (head == null || head in nodes)
    requires NoRepeat(sofar) && Elements(sofar) <= nodes
    requires forall k :: 0 <= k < |sofar| - 1 ==> sofar[k].next == sofar[k + 1]
    requires sofar == [] || sofar[0] == head
    ensures IsTrail(head, p, back) && Elements(p) <= nodes
    decreases |nodes| - |sofar|
  {
    var end := if sofar == [] then head else sofar[|sofar| - 1].next;
    assert sofar != [] ==> sofar[|sofar| - 1] in nodes && LinksOf(nodes)[sofar[|sofar| - 1]] == end;
    if end == null {
      p, back := sofar, -1;
    } else if end in sofar {
      var k :| 0 <= k < |sofar| && sofar[k] == end;
      p, back := sofar, k;
    } else {
      OneFurther(sofar, end, nodes);
      p, back := TrailExists(head, nodes, sofar + [end]);
    }
  }

  /** Which node of p comes at place j after reversal. */
  ghost function TurnedFrom(p: seq<Node>, back: int, j: nat): (i: nat)
    requires -1 <= back < |p| && j < |p|
    ensures i < |p|
  {
    if j <= back then j else |p| + back - j
  }

  /** What reversal makes of a trail: an ending list is turned round; a list that
      runs into a cycle keeps its head and lead-in, and the cycle changes direction. */
  ghost function Turned(p: seq<Node>, back: int): (r: seq<Node>)
    requires -1 <= back && (back < |p| || back == -1)
    ensures |r| == |p|
  {
    seq(|p|, j requires 0 <= j < |p| => p[TurnedFrom(p, back, j)])
  }

  lemma TurnedTwice(p: seq<Node>, back: int)
    requires -1 <= back && (back < |p| || back == -1)
    ensures Turned(Turned(p, back), back) == p
  {
    var t := Turned(p, back);
    forall j | 0 <= j < |p| ensures Turned(t, back)[j] == p[j] {
      assert Turned(t, back)[j] == t[TurnedFrom(t, back, j)];
    }
  }

  /** The next pointer of p[j] after k rounds of the reversal loop. On a cyclic
      list the loop walks the lead-in a second time, backwards, and restores it. */
  ghost function LinkAfter(p: seq<Node>, back: int, k: nat, j: nat): Node?
    requires j < |p| && -1 <= back < |p| && k <= |p| + back + 1
  {
    if j < k && (k <= |p| || j <= back - (k - |p|) || j > back) then
      if j == 0 then null else p[j - 1]
    else if k <= |p| then Link(p, back, j)
    else if j == back then p[|p| - 1]
    else p[j + 1]
  }

  /** All the next pointers after k rounds. */
  ghost function Picture(p: seq<Node>, back: int, k: nat): (r: seq<Node?>)
    requires -1 <= back < |p| && k <= |p| + back + 1
    ensures |r| == |p| && forall j: nat {:trigger LinkAfter(p, back, k, j)} :: j < |p| ==> r[j] == LinkAfter(p, back, k, j)
  {
    seq(|p|, j requires 0 <= j < |p| => LinkAfter(p, back, k, j))
  }

  /** The index of the node that round k looks at. */
  ghost function Current(p: seq<Node>, back: int, k: nat): (c: nat)
    requires -1 <= back < |p| && k < |p| + back + 1
    ensures c < |p|
  {
    if k < |p| then k else back - (k - |p|)
  }

  ghost function Visited(p: seq<Node>, back: int, k: nat): Node?
    requires -1 <= back < |p| && k <= |p| + back + 1
  {
    if k < |p| + back + 1 then p[Current(p, back, k)] else null
  }

  /** One round: it follows the link still in place and points the node back at
      the one visited before. */
  lemma Round(p: seq<Node>, back: int, k: nat)
    requires -1 <= back < |p| && k < |p| + back + 1
    ensures var c := Current(p, back, k);
            && Picture(p, back, k)[c] == Visited(p, back, k + 1)
            && Picture(p, back, k + 1) == Picture(p, back, k)[c := if k == 0 then null else Visited(p, back, k - 1)]
  {
    var c := Current(p, back, k);
    assert LinkAfter(p, back, k, c) == Visited(p, back, k + 1);
    assert LinkAfter(p, back, k + 1, c) == if k == 0 then null else Visited(p, back, k - 1);
    forall j: nat | j < |p| && j != c ensures Picture(p, back, k + 1)[j] == Picture(p, back, k)[j] {
      assert LinkAfter(p, back, k + 1, j) == LinkAfter(p, back, k, j);
    }
  }

  lemma TurnedLink(p: seq<Node>, back: int, j: nat)
    requires -1 <= back < |p| && j < |p|
    ensures LinkAfter(p, back, |p| + back + 1, TurnedFrom(p, back, j)) == Link(Turned(p, back), back, j)
  {
    var t := Turned(p, back);
    if j + 1 < |p| {
      assert t[j + 1] == p[TurnedFrom(p, back, j + 1)];
    } else if back >= 0 {
      assert t[back] == p[back];
    }
  }

  lemma TurnedNoRepeat(p: seq<Node>, back: int)
    requires p != [] && NoRepeat(p) && -1 <= back < |p|
    ensures NoRepeat(Turned(p, back))
  {
    var t := Turned(p, back);
    forall i, j | 0 <= i < j < |t| ensures t[i] != t[j] {
      assert TurnedFrom(p, back, i) != TurnedFrom(p, back, j);
    }
  }

  ghost function Nexts(p: seq<Node>): (r: seq<Node?>)
    reads p
    ensures |r| == |p| && forall j {:trigger r[j]} :: 0 <= j < |p| ==> r[j] == p[j].next
  {
    seq(|p|, j requires 0 <= j < |p| reads p => p[j].next)
  }

  ghost function Datas(p: seq<Node>): (r: seq<int>)
    reads p
    ensures |r| == |p| && forall j {:trigger r[j]} :: 0 <= j < |p| ==> r[j] == p[j].data
  {
    seq(|p|, j requires 0 <= j < |p| reads p => p[j].data)
  }

  lemma BeforeFirstRound(head: Node?, p: seq<Node>, back: int)
    requires p != [] && IsTrail(head, p, back)
    ensures Nexts(p) == Picture(p, back, 0)
  {
    forall j: nat | j < |p| ensures Nexts(p)[j] == Picture(p, back, 0)[j] {
      assert p[j].next == Link(p, back, j);
      assert Picture(p, back, 0)[j] == LinkAfter(p, back, 0, j);
    }
  }

  lemma AfterLastRound(p: seq<Node>, back: int)
    requires p != [] && NoRepeat(p) && -1 <= back < |p| && Nexts(p) == Picture(p, back, |p| + back + 1)
    ensures IsTrail(Visited(p, back, |p| + back), Turned(p, back), back)
  {
    var t := Turned(p, back);
    TurnedNoRepeat(p, back);
    forall j {:trigger Link(t, back, j)} | 0 <= j < |t| ensures t[j].next == Link(t, back, j) {
      TurnedLink(p, back, j);
      var i := TurnedFrom(p, back, j);
      assert t[j] == p[i] && Nexts(p)[i] == LinkAfter(p, back, |p| + back + 1, i);
    }
    assert t[0] == p[TurnedFrom(p, back, 0)];
  }

  lemma EmptyTrail(back: int)
    requires back == -1
    ensures Turned([], back) == [] && IsTrail(null, [], back)
  {
    assert NoRepeat<Node>([]);
  }

  method Reverse(head: Node?, ghost p: seq<Node>, ghost back: int) returns (newHead: Node?)
    requires IsTrail(head, p, back)
    modifies p
    ensures IsTrail(newHead, Turned(p, back), back)
    ensures Datas(p) == old(Datas(p))
  {
    var prev: Node?, curr := null, head;
    ghost var k := 0;
    if p != [] { BeforeFirstRound(head, p, back); }
    while curr != null
      invariant p == [] ==> curr == null && prev == null
      invariant p != [] ==> k <= |p| + back + 1 && Nexts(p) == Picture(p, back, k)
      invariant p != [] ==> curr == Visited(p, back, k) && prev == if k == 0 then null else Visited(p, back, k - 1)
      invariant Datas(p) == old(Datas(p))
      decreases |p| + back + 1 - k
    {
      ghost var c := Current(p, back, k);
      Round(p, back, k);
      assert curr.next == Nexts(p)[c];
      var next := curr.next;
      curr.next := prev;
      assert Nexts(p) == Picture(p, back, k)[c := prev];
      assert Datas(p) == old(Datas(p));
      prev := curr;
      curr := next;
      k := k + 1;
    }
    newHead := prev;
    if p == [] {
      EmptyTrail(back);
    } else {
      AfterLastRound(p, back);
    }
  }

  lemma TurnedSame(p: seq<Node>, back: int)
    requires -1 <= back && (back < |p| || back == -1)
    ensures forall n :: n in Turned(p, back) <==> n in p
  {
    forall n ensures n in Turned(p, back) <==> n in p {
      if k :| 0 <= k < |p| && p[k] == n {
        assert Turned(p, back)[TurnedFrom(p, back, k)] == n;
      }
    }
  }

  lemma TrailDeterminesNexts(head: Node?, p: seq<Node>, back: int)
    requires IsTrail(head, p, back)
    ensures Nexts(p) == seq(|p|, k requires 0 <= k < |p| => Link(p, back, k))
  {
  }

  /** Reversing twice restores every next pointer, cycle or not. */
  method ReverseTwice(head: Node?, ghost p: seq<Node>, ghost back: int) returns (same: Node?)
    requires IsTrail(head, p, back)
    modifies p
    ensures same == head && IsTrail(head, p, back)
    ensures Nexts(p) == old(Nexts(p))
  {
    TrailDeterminesNexts(head, p, back);
    var r := Reverse(head, p, back);
    TurnedSame(p, back);
    same := Reverse(r, Turned(p, back), back);
    TurnedTwice(p, back);
    TrailDeterminesNexts(same, p, back);
  }
}
