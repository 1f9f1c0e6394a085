/** The skill closure of the fixture extractor: a worklist over a graph that may have cycles. */
module FixtureClosure {
  import opened Options

  /** Skills each type requires, effects each type has, and skills the modifiers of each effect refer to. */
  datatype Graph = Graph(required: set<(nat, nat)>, effects: set<(nat, nat)>, modifiers: set<Modifier>)

  /** A modifier of an effect, scoped to a skill or to none. */
  datatype Modifier = Modifier(effect: nat, skill: Option<nat>)

  /** The skill the modifier refers to; a zero is no reference. */
  predicate Names(m: Modifier, skill: nat) {
    m.skill == Some(skill) && skill > 0
  }

  /** `skill` must come along when `typeId` does. */
  ghost predicate Leads(g: Graph, typeId: nat, skill: nat) {
    || (typeId, skill) in g.required
    || exists m | m in g.modifiers :: Names(m, skill) && (typeId, m.effect) in g.effects
  }

  ghost predicate LedFrom(g: Graph, types: set<nat>, skill: nat) {
    exists t: nat :: t in types && Leads(g, t, skill)
  }

  ghost predicate IsClosed(g: Graph, types: set<nat>) {
    && (forall p | p in g.required && p.0 in types :: p.1 in types)
    && (forall m, p, skill: nat | m in g.modifiers && p in g.effects && p.0 in types && p.1 == m.effect && Names(m, skill) :: skill in types)
  }

  /** A chain of types, each leading to the next. */
  ghost predicate IsChain(g: Graph, chain: seq<nat>) {
    chain != [] && forall i | 0 <= i < |chain| - 1 :: Leads(g, chain[i], chain[i + 1])
  }

  ghost predicate Reachable(g: Graph, named: set<nat>, t: nat) {
    exists chain: seq<nat> :: IsChain(g, chain) && chain[0] in named && chain[|chain| - 1] == t
  }

  /** Every skill any row mentions; nothing else is ever added. */
  ghost function Mentioned(g: Graph): set<nat> {
    (set p | p in g.required :: p.1) + (set m | m in g.modifiers && m.skill.Some? :: m.skill.value)
  }

  /** The skills one round adds: required by the frontier, or named by a modifier of one of its effects. */
  method NewSkills(g: Graph, frontier: set<nat>, typeIds: set<nat>) returns (new': set<nat>)
    ensures forall s: nat :: s in new' <==> s !in typeIds && LedFrom(g, frontier, s)
  {
    new' := set p | p in g.required && p.0 in frontier && p.1 !in typeIds :: p.1;
    var effectIds := set p | p in g.effects && p.0 in frontier :: p.1;
    var modSkills := set m | m in g.modifiers && m.effect in effectIds && m.skill.Some? && m.skill.value > 0 :: m.skill.value;
    new' := new' + modSkills - typeIds;
    forall s: nat
      ensures s in new' <==> s !in typeIds && LedFrom(g, frontier, s)
    {
      if s in new' {
        if s in modSkills {
          var m :| m in g.modifiers && m.effect in effectIds && Names(m, s);
          var p :| p in g.effects && p.0 in frontier && p.1 == m.effect;
          assert p == (p.0, m.effect) && Leads(g, p.0, s);
        } else {
          var p :| p in g.required && p.0 in frontier && p.1 == s;
          assert p == (p.0, s) && Leads(g, p.0, s);
        }
      }
      if t: nat :| t in frontier && Leads(g, t, s) && s !in typeIds {
        if (t, s) in g.required {
          assert (t, s).0 in frontier && (t, s).1 !in typeIds;
        } else {
          var m :| m in g.modifiers && Names(m, s) && (t, m.effect) in g.effects;
          assert (t, m.effect).0 in frontier && m.effect in effectIds;
          assert m.skill.value in modSkills;
        }
      }
    }
  }

  /** Closed means that nothing leads out. */
  lemma ClosedIff(g: Graph, types: set<nat>)
    ensures IsClosed(g, types) <==> forall t: nat, s: nat | t in types && Leads(g, t, s) :: s in types
  {
    if IsClosed(g, types) {
      forall t: nat, s: nat | t in types && Leads(g, t, s)
        ensures s in types
      {
        if (t, s) in g.required {
          assert (t, s).1 in types;
        } else {
          var m :| m in g.modifiers && Names(m, s) && (t, m.effect) in g.effects;
          assert (t, m.effect).1 == m.effect;
        }
      }
    }
    if forall t: nat, s: nat | t in types && Leads(g, t, s) :: s in types {
      forall p | p in g.required && p.0 in types
        ensures p.1 in types
      {
        assert p == (p.0, p.1) && Leads(g, p.0, p.1);
      }
      forall m, p, skill: nat | m in g.modifiers && p in g.effects && p.0 in types && p.1 == m.effect && Names(m, skill)
        ensures skill in types
      {
        assert p == (p.0, m.effect) && Leads(g, p.0, skill);
      }
    }
  }

  lemma NamedReachable(g: Graph, named: set<nat>, t: nat)
    requires t in named
    ensures Reachable(g, named, t)
  {
    assert IsChain(g, [t]) && [t][0] in named;
  }

  lemma ReachableNext(g: Graph, named: set<nat>, t: nat, s: nat)
    requires Reachable(g, named, t) && Leads(g, t, s)
    ensures Reachable(g, named, s)
  {
    var chain :| IsChain(g, chain) && chain[0] in named && chain[|chain| - 1] == t;
    var longer := chain + [s];
    assert IsChain(g, longer) && longer[0] in named && longer[|longer| - 1] == s;
  }

  /** A closed set that has the start of a chain has its end. */
  lemma {:induction false} ClosedHoldsChain(g: Graph, types: set<nat>, chain: seq<nat>)
    requires IsClosed(g, types) && IsChain(g, chain) && chain[0] in types
    ensures chain[|chain| - 1] in types
  {
    if |chain| > 1 {
      var n := |chain| - 1;
      assert Leads(g, chain[n - 1], chain[n]);
      ClosedHoldsChain(g, types, chain[..n]);
      ClosedIff(g, types);
    }
  }

  lemma ReachableInClosed(g: Graph, named: set<nat>, types: set<nat>)
    requires IsClosed(g, types) && named <= types
    ensures forall t: nat | Reachable(g, named, t) :: t in types
  {
    forall t: nat | Reachable(g, named, t)
      ensures t in types
    {
      var chain :| IsChain(g, chain) && chain[0] in named && chain[|chain| - 1] == t;
      ClosedHoldsChain(g, types, chain);
    }
  }

  lemma MentionedIfLed(g: Graph, t: nat, s: nat)
    requires Leads(g, t, s)
    ensures s in Mentioned(g)
  {
    if (t, s) in g.required {
      assert (t, s).1 == s;
    } else {
      var m :| m in g.modifiers && Names(m, s) && (t, m.effect) in g.effects;
      assert m.skill.value in set m | m in g.modifiers && m.skill.Some? :: m.skill.value;
    }
  }

  lemma FewerLeft(all: set<nat>, seen: set<nat>, more: set<nat>)
    requires forall s: nat | s in more :: s in all && s !in seen
    ensures |all - (seen + more)| == |all - seen| - |more|
  {
    assert all - seen == (all - (seen + more)) + more;
  }

  /** The worklist stops on every graph, and returns the least closed set that has the named types. */
  method Closure(g: Graph, named: set<nat>) returns (typeIds: set<nat>)
    ensures named <= typeIds && IsClosed(g, typeIds)
    ensures forall other | named <= other && IsClosed(g, other) :: typeIds <= other
    ensures forall t: nat :: t in typeIds <==> Reachable(g, named, t)
  {
    typeIds := named;
    var frontier := typeIds;
    forall t: nat | t in named
      ensures Reachable(g, named, t)
    {
      NamedReachable(g, named, t);
    }
    while frontier != {}
      invariant named <= typeIds && frontier <= typeIds
      invariant forall t: nat, s: nat | t in typeIds - frontier && Leads(g, t, s) :: s in typeIds
      invariant forall t: nat | t in typeIds :: Reachable(g, named, t)
      decreases |Mentioned(g) - typeIds|, |frontier|
    {
      var new' := NewSkills(g, frontier, typeIds);
      forall s: nat | s in new'
        ensures Reachable(g, named, s) && s in Mentioned(g) && s !in typeIds
      {
        assert LedFrom(g, frontier, s);
        var t: nat :| t in frontier && Leads(g, t, s);
        ReachableNext(g, named, t, s);
        MentionedIfLed(g, t, s);
      }
      FewerLeft(Mentioned(g), typeIds, new');
      typeIds := typeIds + new';
      frontier := new';
    }
    ClosedIff(g, typeIds);
    ReachableInClosed(g, named, typeIds);
    forall other | named <= other && IsClosed(g, other)
      ensures typeIds <= other
    {
      ReachableInClosed(g, named, other);
      forall t: nat | t in typeIds
        ensures t in other
      {
        assert Reachable(g, named, t);
      }
    }
  }
}
