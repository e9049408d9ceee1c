/**
 * A class's request list (the `plist` of `pm_qos_object.requests`) and the
 * aggregate `pm_qos_get_value` computes from it.  The list is kept as a
 * sequence of nodes; the plist's ordering by priority only serves to find
 * the extremum quickly, so the model computes the extremum by a scan.
 */
module QosLedger {
  import opened Common
  import opened QosClasses

  /** Identity of a `pm_qos_request_list` handle (the node is embedded in it). */
  type HandleId = nat

  /** A linked plist node: the handle that owns it and its priority. */
  datatype Node = Node(owner: HandleId, prio: Int32)

  /** The handles that own a node of `l`. */
  function Owners(l: seq<Node>): (r: set<HandleId>)
    ensures forall i :: 0 <= i < |l| ==> l[i].owner in r
  {
    if l == [] then {} else {l[0].owner} + Owners(l[1..])
  }

  /** No handle owns two nodes of `l`. */
  predicate Distinct(l: seq<Node>) {
    l == [] || (l[0].owner !in Owners(l[1..]) && Distinct(l[1..]))
  }

  /** The priority of the first node `h` owns. */
  function PrioOf(l: seq<Node>, h: HandleId): (p: Int32)
    requires h in Owners(l)
    ensures Node(h, p) in l
  {
    if l[0].owner == h then l[0].prio else PrioOf(l[1..], h)
  }

  /** The list seen as a map from each owning handle to its requested value. */
  function Ledger(l: seq<Node>): (m: map<HandleId, Int32>)
    ensures m.Keys == Owners(l)
  {
    if l == [] then map[] else Ledger(l[1..])[l[0].owner := l[0].prio]
  }

  /** How many nodes of `l` the handle `h` owns. */
  function Count(l: seq<Node>, h: HandleId): nat {
    if l == [] then 0 else (if l[0].owner == h then 1 else 0) + Count(l[1..], h)
  }

  /** In a list without duplicates, every owner has exactly one node. */
  lemma {:induction false} DistinctCount(l: seq<Node>, h: HandleId)
    requires Distinct(l)
    ensures Count(l, h) == (if h in Owners(l) then 1 else 0)
  {
    if l != [] {
      DistinctCount(l[1..], h);
    }
  }

  /** `plist_del`: unlinks the node `h` owns (a no-op when it owns none). */
  function Without(l: seq<Node>, h: HandleId): (r: seq<Node>)
    ensures forall n :: n in r <==> n in l && n.owner != h
  {
    if l == [] then []
    else if l[0].owner == h then Without(l[1..], h)
    else [l[0]] + Without(l[1..], h)
  }

  /** Unlinking `h` removes exactly `h` from the owners. */
  lemma {:induction false} WithoutOwners(l: seq<Node>, h: HandleId)
    ensures Owners(Without(l, h)) == Owners(l) - {h}
  {
    if l != [] {
      WithoutOwners(l[1..], h);
      if l[0].owner != h {
        var rest := Without(l[1..], h);
        assert ([l[0]] + rest)[1..] == rest;
      }
    }
  }

  /** Unlinking `h` keeps a list free of duplicates. */
  lemma {:induction false} WithoutDistinct(l: seq<Node>, h: HandleId)
    requires Distinct(l)
    ensures Distinct(Without(l, h))
  {
    if l != [] {
      WithoutDistinct(l[1..], h);
      WithoutOwners(l[1..], h);
      if l[0].owner != h {
        var rest := Without(l[1..], h);
        assert ([l[0]] + rest)[1..] == rest;
      }
    }
  }

  /** Unlinking `h` removes exactly `h` from the ledger. */
  lemma {:induction false} WithoutLedger(l: seq<Node>, h: HandleId)
    ensures Ledger(Without(l, h)) == Ledger(l) - {h}
  {
    if l != [] {
      WithoutLedger(l[1..], h);
      if l[0].owner != h {
        var rest := Without(l[1..], h);
        assert ([l[0]] + rest)[1..] == rest;
      }
    }
  }

  /** Unlinking `h` removes exactly `h` from the owners and from the ledger. */
  lemma WithoutFacts(l: seq<Node>, h: HandleId)
    ensures Owners(Without(l, h)) == Owners(l) - {h}
    ensures Ledger(Without(l, h)) == Ledger(l) - {h}
    ensures Distinct(l) ==> Distinct(Without(l, h))
  {
    WithoutOwners(l, h);
    WithoutLedger(l, h);
    if Distinct(l) {
      WithoutDistinct(l, h);
    }
  }

  /** The ledger entry of a handle is the priority of its node. */
  lemma {:induction false} LedgerPrio(l: seq<Node>, h: HandleId)
    requires h in Owners(l)
    ensures Ledger(l)[h] == PrioOf(l, h)
  {
    if l[0].owner != h {
      LedgerPrio(l[1..], h);
    }
  }

  /** `plist_add` of a node whose handle is not yet linked. */
  lemma {:induction false} AppendNode(l: seq<Node>, n: Node)
    requires n.owner !in Owners(l)
    ensures Owners(l + [n]) == Owners(l) + {n.owner}
    ensures Ledger(l + [n]) == Ledger(l)[n.owner := n.prio]
    ensures Distinct(l) ==> Distinct(l + [n])
  {
    if l != [] {
      assert (l + [n])[1..] == l[1..] + [n];
      AppendNode(l[1..], n);
      assert l[0].owner != n.owner;
    }
  }

  /**
   * `m` is `l` with the node of `h` (if any) replaced by `Node(h, p)`: the
   * other nodes are old ones and `h` is now an owner.
   */
  ghost predicate Relinked(l: seq<Node>, m: seq<Node>, h: HandleId, p: Int32) {
    && Distinct(m)
    && Owners(m) == Owners(l) + {h}
    && forall n :: n in m ==> (n in l && n.owner != h) || n == Node(h, p)
  }

  /** Re-linking `h` with priority `p`: `plist_del` followed by `plist_add`. */
  lemma ReplaceNode(l: seq<Node>, h: HandleId, p: Int32)
    requires Distinct(l)
    ensures Relinked(l, Without(l, h) + [Node(h, p)], h, p)
    ensures Ledger(Without(l, h) + [Node(h, p)]) == Ledger(l)[h := p]
  {
    WithoutFacts(l, h);
    AppendNode(Without(l, h), Node(h, p));
  }

  /** Linking `h`, which owns no node yet, with priority `p`: `plist_add`. */
  lemma AddNode(l: seq<Node>, h: HandleId, p: Int32)
    requires Distinct(l) && h !in Owners(l)
    ensures Relinked(l, l + [Node(h, p)], h, p)
    ensures Ledger(l + [Node(h, p)]) == Ledger(l)[h := p]
  {
    AppendNode(l, Node(h, p));
    forall n | n in l + [Node(h, p)] ensures (n in l && n.owner != h) || n == Node(h, p) {
      if n != Node(h, p) {
        assert n in l;
      }
    }
  }

  /** `v` is no more extreme than `r` under the class rule. */
  predicate Dominates(rule: Rule, r: int, v: int) {
    match rule
    case Min => r <= v
    case Max => r >= v
  }

  /** The smallest (`Min`) or largest (`Max`) priority of a non-empty list. */
  function Extremum(rule: Rule, l: seq<Node>): (r: Int32)
    requires l != []
    ensures forall i :: 0 <= i < |l| ==> Dominates(rule, r, l[i].prio)
    ensures exists i :: 0 <= i < |l| && l[i].prio == r
  {
    if |l| == 1 then l[0].prio
    else
      var rest := Extremum(rule, l[1..]);
      if Dominates(rule, l[0].prio, rest) then l[0].prio else rest
  }

  /** `pm_qos_get_value`: the class default on an empty list, else the extremum. */
  function GetValue(cls: QosClass, l: seq<Node>): Int32 {
    if l == [] then cls.defaultValue else Extremum(cls.rule, l)
  }

  /**
   * The aggregate, defined without computing it: the default of an empty
   * list, else a priority present in the list that dominates every other.
   */
  ghost predicate IsAggregate(cls: QosClass, l: seq<Node>, r: int) {
    if l == [] then r == cls.defaultValue
    else
      && (exists i :: 0 <= i < |l| && l[i].prio == r)
      && (forall i :: 0 <= i < |l| ==> Dominates(cls.rule, r, l[i].prio))
  }

  /** The computed aggregate is the one value that satisfies the definition. */
  lemma AggregateIsGetValue(cls: QosClass, l: seq<Node>, r: int)
    ensures IsAggregate(cls, l, r) <==> r == GetValue(cls, l)
  {
    if l != [] && IsAggregate(cls, l, r) {
      var v := GetValue(cls, l);
      var i :| 0 <= i < |l| && l[i].prio == r;
      var j :| 0 <= j < |l| && l[j].prio == v;
      assert Dominates(cls.rule, r, l[j].prio);
      assert Dominates(cls.rule, v, l[i].prio);
    }
  }
}
