/**
 * Properties that relate several PM QoS operations: the aggregate stated on
 * the ledger of live requests, one node per handle, idempotent removal,
 * update-is-replace, the ordering the paired-class clamp maintains, and the
 * open and write steps on a class without a partner.
 */
module QosProperties {
  import opened Common
  import opened QosClasses
  import opened QosLedger
  import opened QosEngine

  /**
   * The aggregate of a ledger of live requests: the default when there are
   * none, else the smallest (`Min`) or largest (`Max`) requested value.
   */
  ghost predicate IsLedgerAggregate(cls: QosClass, m: map<HandleId, Int32>, r: int) {
    if m == map[] then r == cls.defaultValue
    else
      && (exists h :: h in m && m[h] == r)
      && (forall h :: h in m ==> Dominates(cls.rule, r, m[h]))
  }

  /** In a list without duplicates, each node is its owner's ledger entry. */
  lemma {:induction false} LedgerMember(l: seq<Node>, n: Node)
    requires Distinct(l) && n in l
    ensures n.owner in Ledger(l) && Ledger(l)[n.owner] == n.prio
  {
    if l[0] != n {
      LedgerMember(l[1..], n);
      assert l[0].owner != n.owner;
    }
  }

  /** A ledger entry is a node of the list. */
  lemma LedgerNode(l: seq<Node>, h: HandleId)
    requires h in Ledger(l)
    ensures Node(h, Ledger(l)[h]) in l
  {
    LedgerPrio(l, h);
  }

  /** The list-level aggregate is the aggregate of the ledger it holds. */
  lemma LedgerAggregate(cls: QosClass, l: seq<Node>, r: int)
    requires Distinct(l)
    ensures IsAggregate(cls, l, r) <==> IsLedgerAggregate(cls, Ledger(l), r)
  {
    var m := Ledger(l);
    if l == [] {
      assert m == map[];
    } else {
      assert l[0].owner in m;
      if IsAggregate(cls, l, r) {
        var i :| 0 <= i < |l| && l[i].prio == r;
        LedgerMember(l, l[i]);
        forall h | h in m ensures Dominates(cls.rule, r, m[h]) {
          LedgerNode(l, h);
          var j :| 0 <= j < |l| && l[j] == Node(h, m[h]);
        }
      }
      if IsLedgerAggregate(cls, m, r) {
        var h :| h in m && m[h] == r;
        LedgerNode(l, h);
        var i :| 0 <= i < |l| && l[i] == Node(h, r);
        forall j | 0 <= j < |l| ensures Dominates(cls.rule, r, l[j].prio) {
          LedgerMember(l, l[j]);
        }
      }
    }
  }

  /** Every cached target is the aggregate of its class's live requests. */
  lemma TargetIsLedgerAggregate(s: Engine, c: nat)
    requires Valid(s) && c < NumClasses
    ensures IsLedgerAggregate(s.classes[c], Ledger(s.lists[c]), s.targets[c])
  {
    AggregateIsGetValue(s.classes[c], s.lists[c], s.targets[c]);
    LedgerAggregate(s.classes[c], s.lists[c], s.targets[c]);
  }

  /** With no live request a class's target is its default. */
  lemma EmptyClassIsDefault(s: Engine, c: nat)
    requires Valid(s) && c < NumClasses && Ledger(s.lists[c]) == map[]
    ensures Request(s, c) == s.classes[c].defaultValue
  {
    TargetIsLedgerAggregate(s, c);
  }

  /**
   * An active handle owns exactly one node, in the list of its class, and
   * none in any other list.
   */
  lemma OneNodePerHandle(s: Engine, h: HandleId, d: nat)
    requires Valid(s) && h in s.active && d < NumClasses
    ensures Count(s.lists[d], h) == if d == s.active[h] then 1 else 0
  {
    DistinctCount(s.lists[d], h);
    if h in Owners(s.lists[d]) {
      OwnerIsActive(s, d, h);
    }
  }

  /** Removing twice is removing once: the second removal is a no-op without notification. */
  lemma RemoveIdempotent(s: Engine, h: Option<HandleId>)
    requires Valid(s)
    ensures var s1 := RemoveRequest(s, h).engine;
            RemoveRequest(s1, h) == Step(s1, None)
  {
  }

  /**
   * After an update through an active handle, the handle still owns exactly
   * one node, in the list of its class and in no other, and that node holds
   * the substituted, clamped value.
   */
  lemma UpdateKeepsOneEntry(s: Engine, h: HandleId, v: Int32, d: nat)
    requires Valid(s) && h in s.active && d < NumClasses
    ensures var c := s.active[h];
            var r := UpdateRequest(s, Some(h), v).engine;
            && Count(r.lists[d], h) == (if d == c then 1 else 0)
            && Ledger(r.lists[c])[h] == VerifyRequest(s, c, Substitute(s, c, v))
  {
    var r := UpdateRequest(s, Some(h), v).engine;
    OneNodePerHandle(r, h, d);
  }

  // ---- The ordering the paired-class clamp maintains ----

  /** Every request of the floor class is at most every request of its ceiling class. */
  ghost predicate PairOrdered(s: Engine, ceiling: nat, floor: nat)
    requires Shaped(s) && ceiling < NumClasses && floor < NumClasses
  {
    forall a, b :: a in s.lists[floor] && b in s.lists[ceiling] ==> a.prio <= b.prio
  }

  ghost predicate PairsOrdered(s: Engine)
    requires Shaped(s)
  {
    forall c :: 0 <= c < NumClasses && RoleOf(c).Ceiling? ==>
      RoleOf(c).floor < NumClasses && PairOrdered(s, c, RoleOf(c).floor)
  }

  /** At boot no request exists, so every pair is ordered. */
  lemma InitPairsOrdered(classes: seq<QosClass>)
    requires WellFormedTable(classes)
    ensures PairsOrdered(Init(classes))
  {
    forall c | 0 <= c < NumClasses && RoleOf(c).Ceiling?
      ensures RoleOf(c).floor < NumClasses
    {
      PairingConsistent(c, RoleOf(c).floor);
    }
  }

  /** A target dominates every request of its class. */
  lemma TargetDominates(s: Engine, d: nat, b: Node)
    requires Valid(s) && d < NumClasses && b in s.lists[d]
    ensures Dominates(s.classes[d].rule, s.targets[d], b.prio)
  {
    var l := s.lists[d];
    var j :| 0 <= j < |l| && l[j] == b;
  }

  /** After a ledger entry is set to `p`, every node is an old node or holds `p`. */
  lemma NodesAfterSet(l: seq<Node>, l': seq<Node>, h: HandleId, p: Int32)
    requires Distinct(l) && Distinct(l') && Ledger(l') == Ledger(l)[h := p]
    ensures forall n :: n in l' ==> n in l || n.prio == p
  {
    forall n | n in l' ensures n in l || n.prio == p {
      LedgerMember(l', n);
      if n.owner != h {
        LedgerNode(l, n.owner);
      }
    }
  }

  /** After a ledger entry is removed, every node is an old node. */
  lemma NodesAfterRemove(l: seq<Node>, l': seq<Node>, h: HandleId)
    requires Distinct(l) && Distinct(l') && Ledger(l') == Ledger(l) - {h}
    ensures forall n :: n in l' ==> n in l
  {
    forall n | n in l' ensures n in l {
      LedgerMember(l', n);
      LedgerNode(l, n.owner);
    }
  }

  /**
   * Setting the entry of class `c` to a value the clamp admitted keeps every
   * pair ordered: a floor value is at most the ceiling's target, hence at
   * most every ceiling request, and symmetrically.
   */
  lemma SetKeepsPairsOrdered(s: Engine, s': Engine, c: nat, h: HandleId, p: Int32)
    requires Valid(s) && Valid(s') && PairsOrdered(s) && 0 < c < NumClasses
    requires OnlyClassChanged(s, s', c) && Admissible(s, c, p)
    requires Ledger(s'.lists[c]) == Ledger(s.lists[c])[h := p]
    ensures PairsOrdered(s')
  {
    NodesAfterSet(s.lists[c], s'.lists[c], h, p);
    forall u | 0 <= u < NumClasses && RoleOf(u).Ceiling?
      ensures RoleOf(u).floor < NumClasses && PairOrdered(s', u, RoleOf(u).floor)
    {
      var f := RoleOf(u).floor;
      PairingConsistent(u, f);
      forall a, b | a in s'.lists[f] && b in s'.lists[u] ensures a.prio <= b.prio {
        if c == f && a !in s.lists[f] {
          assert RoleOf(c) == Floor(u);
          TargetDominates(s, u, b);
        } else if c == u && b !in s.lists[u] {
          TargetDominates(s, f, a);
        }
      }
    }
  }

  /** Removing an entry keeps every pair ordered. */
  lemma RemoveKeepsPairsOrdered(s: Engine, s': Engine, c: nat, h: HandleId)
    requires Valid(s) && Valid(s') && PairsOrdered(s) && 0 < c < NumClasses
    requires OnlyClassChanged(s, s', c)
    requires Ledger(s'.lists[c]) == Ledger(s.lists[c]) - {h}
    ensures PairsOrdered(s')
  {
    NodesAfterRemove(s.lists[c], s'.lists[c], h);
  }

  /** Every add, update and remove keeps the paired classes ordered. */
  lemma OperationsKeepPairsOrdered(s: Engine, h: HandleId, c: nat, v: Int32)
    requires Valid(s) && PairsOrdered(s) && 0 < c < NumClasses
    ensures PairsOrdered(AddRequest(s, h, c, v).engine)
    ensures PairsOrdered(UpdateRequest(s, Some(h), v).engine)
    ensures PairsOrdered(RemoveRequest(s, Some(h)).engine)
  {
    if h !in s.active {
      SetKeepsPairsOrdered(s, AddRequest(s, h, c, v).engine, c, h, VerifyRequest(s, c, Substitute(s, c, v)));
    } else {
      var d := s.active[h];
      SetKeepsPairsOrdered(s, UpdateRequest(s, Some(h), v).engine, d, h, VerifyRequest(s, d, Substitute(s, d, v)));
      RemoveKeepsPairsOrdered(s, RemoveRequest(s, Some(h)).engine, d, h);
    }
  }

  /**
   * While both classes of a pair have requests, the floor's target does not
   * exceed the ceiling's: the clamp keeps the window from inverting.
   */
  lemma WindowNotInverted(s: Engine, u: nat)
    requires Valid(s) && PairsOrdered(s) && u < NumClasses && RoleOf(u).Ceiling?
    requires s.lists[u] != [] && s.lists[RoleOf(u).floor] != []
    ensures s.targets[RoleOf(u).floor] <= s.targets[u]
  {
    var f := RoleOf(u).floor;
    PairingConsistent(u, f);
    var lf := s.lists[f];
    var lu := s.lists[u];
    var i :| 0 <= i < |lf| && lf[i].prio == s.targets[f];
    var j :| 0 <= j < |lu| && lu[j].prio == s.targets[u];
    assert lf[i] in lf && lu[j] in lu;
  }

  // ---- Unpaired classes ----

  /** Opening a handle on an unpaired class without a value links it at the class default. */
  lemma OpenUnpaired(s: Engine, h: HandleId, c: nat)
    requires Valid(s) && h !in s.active && 0 < c < NumClasses && RoleOf(c) == Unpaired
    ensures var r := AddRequest(s, h, c, Sentinel).engine;
            && r.classes == s.classes && r.active == s.active[h := c]
            && Ledger(r.lists[c]) == Ledger(s.lists[c])[h := s.classes[c].defaultValue]
  {
  }

  /** A write through a handle of an unpaired class sets its entry to the value written. */
  lemma WriteUnpaired(s: Engine, h: HandleId, v: Int32)
    requires Valid(s) && h in s.active && RoleOf(s.active[h]) == Unpaired && v != Sentinel
    ensures var r := UpdateRequest(s, Some(h), v).engine;
            && r.classes == s.classes && r.active == s.active
            && Ledger(r.lists[s.active[h]]) == Ledger(s.lists[s.active[h]])[h := v]
  {
  }
}
