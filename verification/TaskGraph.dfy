/** Construction of the data-flow graph of a frame: task descriptors are allocated one after
    the other and linked with push_successor, one activation link and one unit of wc a time. */
module TaskGraph {
  import opened ActivationList

  /** links[i]: the activation list of task i, in push order; wc[j]: the count task j waits for. */
  datatype Graph = Graph(links: seq<seq<nat>>, wc: seq<nat>)

  /** Number of occurrences of j. */
  function Occurs(list: seq<nat>, j: nat): nat {
    if list == [] then 0 else Occurs(list[..|list| - 1], j) + (if list[|list| - 1] == j then 1 else 0)
  }

  /** Number of links to j from the first n tasks. */
  function LinksTo(links: seq<seq<nat>>, n: nat, j: nat): nat
    requires n <= |links|
  {
    if n == 0 then 0 else LinksTo(links, n - 1, j) + Occurs(links[n - 1], j)
  }

  /** Links go from earlier to later descriptors, and wc counts them with multiplicity. */
  ghost predicate WellBuilt(g: Graph) {
    && |g.wc| == |g.links|
    && (forall i, k :: 0 <= i < |g.links| && 0 <= k < |g.links[i]| ==> i < g.links[i][k] < |g.links|)
    && (forall j: nat :: j < |g.wc| ==> g.wc[j] == LinksTo(g.links, |g.links|, j))
  }

  lemma {:induction false} OccursAppend(list: seq<nat>, x: nat, j: nat)
    ensures Occurs(list + [x], j) == Occurs(list, j) + (if x == j then 1 else 0)
  {
    assert (list + [x])[..|list|] == list;
  }

  lemma {:induction false} LinksToUpdate(links: seq<seq<nat>>, n: nat, i: nat, list: seq<nat>, j: nat)
    requires n <= |links| && i < |links|
    ensures LinksTo(links[i := list], n, j)
         == LinksTo(links, n, j) + (if i < n then Occurs(list, j) - Occurs(links[i], j) else 0)
  {
    if n > 0 {
      LinksToUpdate(links, n - 1, i, list, j);
    }
  }

  lemma {:induction false} LinksToExtend(links: seq<seq<nat>>, n: nat, list: seq<nat>, j: nat)
    requires n <= |links|
    ensures LinksTo(links + [list], n, j) == LinksTo(links, n, j)
  {
    if n > 0 {
      LinksToExtend(links, n - 1, list, j);
    }
  }

  lemma {:induction false} NoLinkNoCount(links: seq<seq<nat>>, n: nat, j: nat)
    requires n <= |links|
    requires forall i, k :: 0 <= i < n && 0 <= k < |links[i]| ==> links[i][k] != j
    ensures LinksTo(links, n, j) == 0
  {
    if n > 0 {
      NoLinkNoCount(links, n - 1, j);
      OccursNone(links[n - 1], j);
    }
  }

  lemma {:induction false} OccursNone(list: seq<nat>, j: nat)
    requires forall k :: 0 <= k < |list| ==> list[k] != j
    ensures Occurs(list, j) == 0
  {
    if list != [] {
      OccursNone(list[..|list| - 1], j);
    }
  }

  /** The descriptors of a frame: an activation list and a synchronisation count each. */
  class FrameTasklist {
    var lists: seq<List>
    var wc: seq<nat>
    var totalTasks: nat
    /** The successors of each descriptor, as its activation list holds them. */
    ghost var links: seq<seq<nat>>
    ghost var repr: set<object>

    ghost function Built(): Graph
      reads this
    {
      Graph(links, wc)
    }

    /** Descriptor i's list is well formed and holds links[i]; lists share nothing. */
    ghost predicate Listed(i: int)
      requires 0 <= i < |lists| == |links|
      reads this`lists, this`links, this`repr, repr
    {
      && lists[i] in repr && (forall l :: l in lists[i].chain ==> l in repr)
      && lists[i].Valid() && lists[i].tds == links[i]
    }

    ghost predicate Valid()
      reads this, repr
    {
      WellBuilt(Built()) && totalTasks == |links| && ListsOk()
    }

    ghost predicate ListsOk()
      reads this`lists, this`links, this`repr, repr
    {
      && |links| == |lists| && this !in repr
      && (forall i :: 0 <= i < |lists| ==> Listed(i))
      && (forall i, j :: 0 <= i < j < |lists| ==> lists[i] != lists[j])
    }

    constructor ()
      ensures Valid() && totalTasks == 0 && fresh(repr)
    {
      lists, links, wc, totalTasks, repr := [], [], [], 0, {};
    }

    method AllocateTd() returns (td: nat)
      requires Valid()
      modifies this
      ensures Valid() && fresh(repr - old(repr)) && td == old(totalTasks) && totalTasks == td + 1
      ensures links == old(links) + [[]] && wc == old(wc) + [0]
    {
      td := totalTasks;
      ghost var before := links;
      var list := new List();
      lists := lists + [list];
      links := links + [[]];
      wc := wc + [0];
      totalTasks := totalTasks + 1;
      repr := repr + {list};
      assert wc[..|before|] == old(wc);
      EmptyTaskKeeps(before, wc);
      forall j | 0 <= j < |lists| ensures Listed(j) {
        if j < td {
          assert old(Listed(j));
        }
      }
    }

    /** One more link, one more synchronisation; linking the same pair again counts again. */
    method PushSuccessor(td: nat, succ: nat)
      requires Valid() && td < succ < totalTasks
      modifies this, repr
      ensures Valid() && fresh(repr - old(repr)) && totalTasks == old(totalTasks)
      ensures links == old(links)[td := old(links)[td] + [succ]]
      ensures wc == old(wc)[succ := old(wc)[succ] + 1]
    {
      LinkKeeps(links, wc, td, succ);
      AddLink(td, succ);
      wc := wc[succ := wc[succ] + 1];
    }

    /** A new link at the back of td's activation list; the other lists are not touched. */
    method AddLink(td: nat, succ: nat)
      requires ListsOk() && td < |lists|
      modifies this`links, this`repr, repr
      ensures ListsOk() && fresh(repr - old(repr))
      ensures links == old(links)[td := old(links)[td] + [succ]]
    {
      assert Listed(td);
      var al := new Link(succ);
      lists[td].PushBack(al);
      links := links[td := links[td] + [succ]];
      repr := repr + {al};
      forall j | 0 <= j < |lists| ensures Listed(j) {
        assert old(Listed(j));
      }
    }
  }

  lemma LinkKeeps(links: seq<seq<nat>>, wc: seq<nat>, td: nat, succ: nat)
    requires WellBuilt(Graph(links, wc)) && td < succ < |wc|
    ensures WellBuilt(Graph(links[td := links[td] + [succ]], wc[succ := wc[succ] + 1]))
  {
    var more := links[td := links[td] + [succ]];
    forall j: nat | j < |wc| ensures wc[succ := wc[succ] + 1][j] == LinksTo(more, |more|, j) {
      LinksToUpdate(links, |links|, td, links[td] + [succ], j);
      OccursAppend(links[td], succ, j);
    }
  }

  lemma EmptyTaskKeeps(links: seq<seq<nat>>, wc: seq<nat>)
    requires |wc| == |links| + 1 && wc[|links|] == 0 && WellBuilt(Graph(links, wc[..|links|]))
    ensures WellBuilt(Graph(links + [[]], wc))
  {
    forall j: nat | j < |wc| ensures wc[j] == LinksTo(links + [[]], |wc|, j) {
      LinksToExtend(links, |links|, [], j);
      if j == |links| {
        NoLinkNoCount(links, |links|, j);
      }
    }
  }
}

/** The activation list as the runtime stores it: links chained from front to back. */
module ActivationList {

  class Link {
    var td: nat
    var next: Link?
    /** The list the link is in. */
    ghost var of: List?

    constructor (td: nat)
      ensures this.td == td && next == null && of == null
    {
      this.td := td;
      next := null;
      of := null;
    }
  }

  class List {
    var front: Link?
    var back: Link?
    ghost var chain: seq<Link>
    /** The descriptors the links lead to. */
    ghost var tds: seq<nat>

    ghost predicate Valid()
      reads this, chain
    {
      && (chain == [] ==> front == null && back == null)
      && (chain != [] ==> front == chain[0] && back == chain[|chain| - 1] && chain[|chain| - 1].next == null)
      && (forall i :: 0 <= i < |chain| - 1 ==> chain[i].next == chain[i + 1])
      && (forall i, j :: 0 <= i < j < |chain| ==> chain[i] != chain[j])
      && |tds| == |chain| && (forall i :: 0 <= i < |chain| ==> chain[i].td == tds[i] && chain[i].of == this)
    }

    constructor ()
      ensures Valid() && chain == [] && tds == []
    {
      front, back, chain, tds := null, null, [], [];
    }

    method IsEmpty() returns (empty: bool)
      requires Valid()
      ensures empty <==> tds == []
    {
      empty := front == null;
    }

    method PushBack(l: Link)
      requires Valid() && l !in chain
      modifies this, chain, l
      ensures Valid() && chain == old(chain) + [l] && tds == old(tds) + [old(l.td)]
    {
      l.next := null;
      l.of := this;
      if back == null {
        front := l;
        back := l;
      } else {
        back.next := l;
        back := l;
      }
      chain := chain + [l];
      tds := tds + [l.td];
    }

    /** Links come out in the order they were pushed. */
    method PopFront() returns (l: Link?)
      requires Valid()
      modifies this
      ensures Valid()
      ensures old(chain) == [] ==> l == null && chain == []
      ensures old(chain) != [] ==> l == old(chain)[0] && chain == old(chain)[1..] && tds == old(tds)[1..]
    {
      l := front;
      if l == null {
        return;
      }
      front := l.next;
      if l.next == null {
        back := null;
      }
      chain := chain[1..];
      tds := tds[1..];
    }
  }
}
