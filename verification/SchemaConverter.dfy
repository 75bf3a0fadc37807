/** The converter object: its rule table, the set of references being resolved and its error flag are
    updated in place by methods that call each other as the source's do. */
module SchemaConverter {
  import opened Basics
  import opened Decimals
  import opened Gbnf
  import opened RuleStore
  import opened Primitives
  import S = Schema
  import ObjectRule
  import NotStrings
  import Pattern

  lemma {:induction false} AddDepsStep(rules: Rules, deps: seq<string>, i: nat)
    requires i < |deps|
    ensures Primitives.AddDeps(rules, deps[i..]) == Primitives.AddDeps(Primitives.AddDep(rules, deps[i], |deps| - i), deps[i + 1..])
  {
    hide Primitives.AddDep;
    assert deps[i..][0] == deps[i] && deps[i..][1..] == deps[i + 1..];
  }

  // The names collected before those of a rest.
  function After(names: seq<string>, r: (S.CState, seq<string>)): (S.CState, seq<string>) { (r.0, names + r.1) }

  lemma {:induction false} VisitAlternativesStart(subs: seq<S.Schema>, name: string, st: S.CState, ctx: S.Context)
    ensures S.VisitAlternatives(subs, name, 0, st, ctx) == After([], S.VisitAlternatives(subs[0..], name, 0, st, ctx))
  {
    hide S.VisitAlternatives;
    assert subs[0..] == subs;
    assert [] + S.VisitAlternatives(subs, name, 0, st, ctx).1 == S.VisitAlternatives(subs, name, 0, st, ctx).1;
  }

  lemma {:induction false} VisitAlternativesStep(subs: seq<S.Schema>, name: string, i: nat, names: seq<string>, st: S.CState, ctx: S.Context)
    requires i < |subs|
    ensures var r := S.Visit(subs[i], S.AlternativeName(name, i), st, ctx);
            After(names, S.VisitAlternatives(subs[i..], name, i, st, ctx))
            == After(names + [r.1], S.VisitAlternatives(subs[i + 1..], name, i + 1, r.0, ctx))
  {
    hide S.Visit, S.VisitAs, S.AlternativeName, S.Under, Decimal;
    var tail := subs[i..];
    assert tail[0] == subs[i] && tail[1..] == subs[i + 1..];
    var r := S.Visit(subs[i], S.AlternativeName(name, i), st, ctx);
    Assoc(names, [r.1], S.VisitAlternatives(subs[i + 1..], name, i + 1, r.0, ctx).1);
  }

  lemma {:induction false} VisitAlternativesEnd(subs: seq<S.Schema>, name: string, i: nat, names: seq<string>, st: S.CState, ctx: S.Context)
    requires i == |subs|
    ensures After(names, S.VisitAlternatives(subs[i..], name, i, st, ctx)) == (st, names)
  {
    assert names + [] == names;
  }

  lemma {:induction false} VisitEachTypeStart(s: S.Schema, ts: seq<string>, name: string, st: S.CState, ctx: S.Context)
    ensures S.VisitEachType(s, ts, name, 0, st, ctx) == After([], S.VisitEachType(s, ts[0..], name, 0, st, ctx))
  {
    hide S.VisitEachType;
    assert ts[0..] == ts;
    assert [] + S.VisitEachType(s, ts, name, 0, st, ctx).1 == S.VisitEachType(s, ts, name, 0, st, ctx).1;
  }

  lemma {:induction false} VisitEachTypeStep(s: S.Schema, ts: seq<string>, name: string, i: nat, names: seq<string>, st: S.CState, ctx: S.Context)
    requires i < |ts|
    ensures var r := S.VisitAs(s, Some(ts[i]), S.AlternativeName(name, i), st, ctx);
            After(names, S.VisitEachType(s, ts[i..], name, i, st, ctx))
            == After(names + [r.1], S.VisitEachType(s, ts[i + 1..], name, i + 1, r.0, ctx))
  {
    hide S.Visit, S.VisitAs, S.AlternativeName, S.Under, Decimal;
    var tail := ts[i..];
    assert tail[0] == ts[i] && tail[1..] == ts[i + 1..];
    var r := S.VisitAs(s, Some(ts[i]), S.AlternativeName(name, i), st, ctx);
    Assoc(names, [r.1], S.VisitEachType(s, ts[i + 1..], name, i + 1, r.0, ctx).1);
  }

  lemma {:induction false} VisitEachTypeEnd(s: S.Schema, ts: seq<string>, name: string, i: nat, names: seq<string>, st: S.CState, ctx: S.Context)
    requires i == |ts|
    ensures After(names, S.VisitEachType(s, ts[i..], name, i, st, ctx)) == (st, names)
  {
    assert names + [] == names;
  }

  lemma {:induction false} VisitTupleStart(subs: seq<S.Schema>, name: string, st: S.CState, ctx: S.Context)
    ensures S.VisitTuple(subs, name, 0, st, ctx) == After([], S.VisitTuple(subs[0..], name, 0, st, ctx))
  {
    hide S.VisitTuple;
    assert subs[0..] == subs;
    assert [] + S.VisitTuple(subs, name, 0, st, ctx).1 == S.VisitTuple(subs, name, 0, st, ctx).1;
  }

  lemma {:induction false} VisitTupleStep(subs: seq<S.Schema>, name: string, i: nat, names: seq<string>, st: S.CState, ctx: S.Context)
    requires i < |subs|
    ensures var r := S.Visit(subs[i], S.Under(name, "tuple-" + Decimal(i)), st, ctx);
            After(names, S.VisitTuple(subs[i..], name, i, st, ctx))
            == After(names + [r.1], S.VisitTuple(subs[i + 1..], name, i + 1, r.0, ctx))
  {
    hide S.Visit, S.VisitAs, S.AlternativeName, S.Under, Decimal;
    var tail := subs[i..];
    assert tail[0] == subs[i] && tail[1..] == subs[i + 1..];
    var r := S.Visit(subs[i], S.Under(name, "tuple-" + Decimal(i)), st, ctx);
    Assoc(names, [r.1], S.VisitTuple(subs[i + 1..], name, i + 1, r.0, ctx).1);
  }

  lemma {:induction false} VisitTupleEnd(subs: seq<S.Schema>, name: string, i: nat, names: seq<string>, st: S.CState, ctx: S.Context)
    requires i == |subs|
    ensures After(names, S.VisitTuple(subs[i..], name, i, st, ctx)) == (st, names)
  {
    assert names + [] == names;
  }

  class Converter {
    const store: Store
    const refs: S.Refs
    const dotall: bool
    var being: set<string>
    var halts: set<S.Halt>

    function State(): S.CState
      reads this, store
    {
      S.CState(store.rules, being, halts)
    }

    // `chased` are the references whose properties are being visited as those of "allOf" members; the
    // source keeps no record of them and does not return when one comes round again.
    function Ctx(chased: set<string>): S.Context { S.Context(refs, dotall, chased) }

    constructor (refs: S.Refs, dotall: bool)
      ensures State() == S.START && this.refs == refs && this.dotall == dotall && fresh(store)
    {
      store := new Store();
      this.refs, this.dotall := refs, dotall;
      being, halts := {}, {};
      new;
      store.rules := map["space" := SPACE_RULE];
    }

    method AddPrimitive(name: string, b: Builtin) returns (key: string)
      modifies store
      ensures (store.rules, key) == Primitives.AddPrimitive(old(store.rules), name, b)
      decreases |BUILTINS - store.rules.Keys - {EscapeName(name)}|, 1, 0
    {
      hide Known, EscapeName, Primitives.AddDeps;
      ghost var before := store.rules;
      key := store.Add(name, b.content);
      FewerLeft(BUILTINS - store.rules.Keys, BUILTINS - before.Keys - {EscapeName(name)});
      AddDeps(b.deps);
    }

    method AddDeps(deps: seq<string>)
      modifies store
      ensures store.rules == Primitives.AddDeps(old(store.rules), deps)
      decreases |BUILTINS - store.rules.Keys|, 0, |deps|
    {
      ghost var before := store.rules;
      var i := 0;
      assert deps[0..] == deps;
      while i < |deps|
        invariant 0 <= i <= |deps|
        invariant Primitives.AddDeps(store.rules, deps[i..]) == Primitives.AddDeps(before, deps)
        invariant Extends(store.rules, before)
      {
        hide Primitives.AddDeps, Primitives.AddDep;
        AddDepsStep(store.rules, deps, i);
        FewerLeft(BUILTINS - store.rules.Keys, BUILTINS - before.Keys);
        AddDep(deps[i], |deps| - i);
        i := i + 1;
      }
    }

    method AddDep(dep: string, ghost left: nat)
      requires left > 0
      modifies store
      ensures store.rules == Primitives.AddDep(old(store.rules), dep, left)
      decreases |BUILTINS - store.rules.Keys|, 0, left - 1
    {
      hide Known;
      if dep !in store.rules && Known(dep).Some? {
        KnownNames(dep);
        BuiltinNameClean(dep);
        FewerLeft(BUILTINS - store.rules.Keys - {dep}, BUILTINS - store.rules.Keys);
        var _ := AddPrimitive(dep, Known(dep).value);
      }
    }

    // The reference's schema is visited unless its name is taken or it is being resolved.
    method ResolveRef(ref: string, ghost at: S.Schema, chased: set<string>) returns (name: string)
      modifies this, store
      ensures (State(), name) == S.ResolveRef(ref, old(State()), Ctx(chased), at)
      decreases S.Left(Ctx(chased), State()), S.Unchased(Ctx(chased)), at, 2
    {
      name := S.RefName(ref);
      if name !in store.rules && ref !in being {
        if ref !in refs {
          name := VisitLeaf(S.EMPTY, None, name);
        } else {
          ghost var before := being;
          being := being + {ref};
          FewerLeft(refs.Keys - being, refs.Keys - before);
          name := Visit(refs[ref], name, {});
          being := being - {ref};
          assert being == before;
        }
      }
    }

    method Visit(s: S.Schema, name: string, chased: set<string>) returns (key: string)
      modifies this, store
      ensures (State(), key) == S.Visit(s, name, old(State()), Ctx(chased))
      decreases S.Left(Ctx(chased), State()), S.Unchased(Ctx(chased)), s, 3
    {
      hide S.ResolveRef, S.VisitAlternatives, S.VisitEachType, S.VisitAs;
      if s.ref.Some? {
        var ref := ResolveRef(s.ref.value, s, chased);
        key := store.Add(S.RuleName(name), Ref(ref));
      } else if s.alternatives.AnyOf? {
        var names := VisitAlternatives(s.alternatives.subs, name, chased);
        key := store.Add(S.RuleName(name), S.Union(S.RefsTo(names)));
      } else {
        match s.types
        case Several(ts) =>
          var names := VisitEachType(s, ts, name, chased);
          key := store.Add(S.RuleName(name), S.Union(S.RefsTo(names)));
        case NoType => key := VisitAs(s, None, name, chased);
        case One(t) => key := VisitAs(s, Some(t), name, chased);
      }
    }

    method VisitAlternatives(subs: seq<S.Schema>, name: string, chased: set<string>) returns (names: seq<string>)
      modifies this, store
      ensures (State(), names) == S.VisitAlternatives(subs, name, 0, old(State()), Ctx(chased))
      decreases S.Left(Ctx(chased), State()), S.Unchased(Ctx(chased)), subs, 0
    {
      names := [];
      var i := 0;
      ghost var all := S.VisitAlternatives(subs, name, 0, State(), Ctx(chased));
      VisitAlternativesStart(subs, name, State(), Ctx(chased));
      while i < |subs|
        invariant 0 <= i <= |subs| && being == old(being)
        invariant all == After(names, S.VisitAlternatives(subs[i..], name, i, State(), Ctx(chased)))
      {
        hide S.VisitAlternatives, After, S.AlternativeName, S.Under, S.Visit, S.VisitAs;
        VisitAlternativesStep(subs, name, i, names, State(), Ctx(chased));
        var key := Visit(subs[i], S.AlternativeName(name, i), chased);
        names := names + [key];
        i := i + 1;
      }
      VisitAlternativesEnd(subs, name, i, names, State(), Ctx(chased));
    }

    method VisitEachType(s: S.Schema, ts: seq<string>, name: string, chased: set<string>) returns (names: seq<string>)
      modifies this, store
      ensures (State(), names) == S.VisitEachType(s, ts, name, 0, old(State()), Ctx(chased))
      decreases S.Left(Ctx(chased), State()), S.Unchased(Ctx(chased)), s, 2
    {
      names := [];
      var i := 0;
      ghost var all := S.VisitEachType(s, ts, name, 0, State(), Ctx(chased));
      VisitEachTypeStart(s, ts, name, State(), Ctx(chased));
      while i < |ts|
        invariant 0 <= i <= |ts| && being == old(being)
        invariant all == After(names, S.VisitEachType(s, ts[i..], name, i, State(), Ctx(chased)))
      {
        hide S.VisitEachType, After, S.AlternativeName, S.Under, S.Visit, S.VisitAs;
        VisitEachTypeStep(s, ts, name, i, names, State(), Ctx(chased));
        var key := VisitAs(s, Some(ts[i]), S.AlternativeName(name, i), chased);
        names := names + [key];
        i := i + 1;
      }
      VisitEachTypeEnd(s, ts, name, i, names, State(), Ctx(chased));
    }

    method VisitTuple(subs: seq<S.Schema>, name: string, chased: set<string>) returns (names: seq<string>)
      modifies this, store
      ensures (State(), names) == S.VisitTuple(subs, name, 0, old(State()), Ctx(chased))
      decreases S.Left(Ctx(chased), State()), S.Unchased(Ctx(chased)), subs, 0
    {
      names := [];
      var i := 0;
      ghost var all := S.VisitTuple(subs, name, 0, State(), Ctx(chased));
      VisitTupleStart(subs, name, State(), Ctx(chased));
      while i < |subs|
        invariant 0 <= i <= |subs| && being == old(being)
        invariant all == After(names, S.VisitTuple(subs[i..], name, i, State(), Ctx(chased)))
      {
        hide S.VisitTuple, After, S.AlternativeName, S.Under, S.Visit, S.VisitAs;
        VisitTupleStep(subs, name, i, names, State(), Ctx(chased));
        var key := Visit(subs[i], S.Under(name, "tuple-" + Decimal(i)), chased);
        names := names + [key];
        i := i + 1;
      }
      VisitTupleEnd(subs, name, i, names, State(), Ctx(chased));
    }

    // From "const" on, with the type fixed.
    method VisitAs(s: S.Schema, ty: Option<string>, name: string, chased: set<string>) returns (key: string)
      modifies this, store
      ensures (State(), key) == S.VisitAs(s, ty, name, old(State()), Ctx(chased))
      decreases S.Left(Ctx(chased), State()), S.Unchased(Ctx(chased)), s, 1
    {
      hide S.VisitObject, S.VisitAllOf, S.VisitLeaf, S.VisitItems, S.Union;
      if s.constant.Some? {
        key := store.Add(S.RuleName(name), Cat(Lit(s.constant.value), Space()));
      } else if s.enumerated.Some? {
        key := store.Add(S.RuleName(name), Cat(S.Union(S.Literals(s.enumerated.value)), Space()));
      } else if S.IsObject(s, ty) {
        var e := BuildObject(s, name, chased);
        key := store.Add(S.RuleName(name), e);
      } else if S.IsAllOf(s, ty) {
        var e := VisitAllOf(s, s.allOf, name, chased);
        key := store.Add(S.RuleName(name), e);
      } else if S.Untyped(ty, "array") && !s.items.NoItems? {
        var e := VisitItems(s, s.items, name, chased);
        key := store.Add(S.RuleName(name), e);
      } else {
        key := VisitLeaf(s, ty, name);
      }
    }

    method VisitItems(s: S.Schema, items: S.Items, name: string, chased: set<string>) returns (e: Expr)
      requires items == s.items && !items.NoItems?
      modifies this, store
      ensures (State(), e) == S.VisitItems(s, items, name, old(State()), Ctx(chased))
      decreases S.Left(Ctx(chased), State()), S.Unchased(Ctx(chased)), s, 0
    {
      match items
      case Tuple(subs) =>
        var names := VisitTuple(subs, name, chased);
        e := S.Bracketed(S.TupleItems(names));
      case Each(sub) =>
        var key := Visit(sub, S.Under(name, "item"), chased);
        e := S.Bracketed([S.Separated(Ref(key), S.CommaSpace(), s.minItems, s.maxItems)]);
    }

    // One pair rule for each property, in order.
    method VisitProperties(ps: seq<S.Property>, name: string, start: ObjectRule.KvNames, chased: set<string>) returns (kv: ObjectRule.KvNames)
      modifies this, store
      ensures (State(), kv) == S.VisitProperties(ps, name, start, old(State()), Ctx(chased))
      decreases S.Left(Ctx(chased), State()), S.Unchased(Ctx(chased)), ps, 1
    {
      hide S.VisitProperty;
      kv := start;
      var i := 0;
      assert ps[0..] == ps;
      while i < |ps|
        invariant 0 <= i <= |ps| && being == old(being)
        invariant S.VisitProperties(ps[i..], name, kv, State(), Ctx(chased)) == S.VisitProperties(ps, name, start, old(State()), Ctx(chased))
      {
        assert ps[i..][0] == ps[i] && ps[i..][1..] == ps[i + 1..];
        var key := VisitProperty(ps[i], name, chased);
        kv := kv[ps[i].key := key];
        i := i + 1;
      }
    }

    method VisitProperty(p: S.Property, name: string, chased: set<string>) returns (key: string)
      modifies this, store
      ensures (State(), key) == S.VisitProperty(p, name, old(State()), Ctx(chased))
      decreases S.Left(Ctx(chased), State()), S.Unchased(Ctx(chased)), p, 0
    {
      var value := Visit(p.sub, S.Under(name, p.key), chased);
      key := store.Add(S.Under(name, p.key) + "-kv", S.KvExpr(p.key, value));
    }

    method VisitExtra(s: S.Schema, additional: S.Additional, ps: seq<S.Property>, name: string, chased: set<string>) returns (key: string)
      requires additional == s.additional && !additional.Absent?
      modifies this, store
      ensures (State(), key) == S.VisitExtra(s, additional, ps, name, old(State()), Ctx(chased))
      decreases S.Left(Ctx(chased), State()), S.Unchased(Ctx(chased)), s, 0, 0
    {
      hide S.Visit, CharRule, StringRule, ValueRule, Primitives.AddPrimitive, NotStrings.NotStringsExpr, S.ExtraKvExpr, S.Under;
      var subName := S.Under(name, "additional");
      var value: string;
      if additional.Extra? {
        value := Visit(additional.sub, subName + "-value", chased);
      } else {
        value := AddPrimitive("value", ValueRule());
      }
      var keyRule: string;
      if ps == [] {
        keyRule := AddPrimitive("string", StringRule());
      } else {
        var _ := AddPrimitive("char", CharRule());
        keyRule := store.Add(subName + "-k", NotStrings.NotStringsExpr(S.PropertyNames(ps)));
      }
      key := store.Add(subName + "-kv", S.ExtraKvExpr(keyRule, value));
    }

    method BuildObject(s: S.Schema, name: string, chased: set<string>) returns (e: Expr)
      modifies this, store
      ensures (State(), e) == S.VisitObject(s, S.PropertiesOf(s), name, old(State()), Ctx(chased))
      decreases S.Left(Ctx(chased), State()), S.Unchased(Ctx(chased)), s, 0, 2
    {
      hide S.VisitPairs, S.Keys, ObjectRule.ObjectExpr;
      var ps := S.PropertiesOf(s);
      var kv := VisitPairs(s, name, chased);
      var extra := if S.AllowsExtra(s) then [ObjectRule.STAR] else [];
      e := ObjectRule.BuildObjectRule(store, name, kv, S.KeysWhere(ps, s.required, true), S.KeysWhere(ps, s.required, false) + extra);
    }

    method VisitPairs(s: S.Schema, name: string, chased: set<string>) returns (kv: ObjectRule.KvNames)
      modifies this, store
      ensures (State(), kv) == S.VisitPairs(s, S.PropertiesOf(s), name, old(State()), Ctx(chased))
      decreases S.Left(Ctx(chased), State()), S.Unchased(Ctx(chased)), s, 0, 1
    {
      hide S.VisitProperties, S.VisitExtra, S.Keys;
      kv := map[];
      if s.properties.Listed? {
        kv := VisitProperties(s.properties.list, name, map[], chased);
      }
      assert S.VisitProps(s, S.PropertiesOf(s), name, old(State()), Ctx(chased)) == (State(), kv);
      if S.AllowsExtra(s) {
        var key := VisitExtra(s, s.additional, S.PropertiesOf(s), name, chased);
        kv := kv[ObjectRule.STAR := key];
      }
    }

    // The shared constants, or one object of the members' properties.
    method VisitAllOf(s: S.Schema, allOf: S.AllOf, name: string, chased: set<string>) returns (e: Expr)
      requires allOf == s.allOf && allOf.Together?
      modifies this, store
      ensures (State(), e) == S.VisitAllOf(s, allOf, name, old(State()), Ctx(chased))
      decreases S.Left(Ctx(chased), State()), S.Unchased(Ctx(chased)), s, 0, 2
    {
      hide S.VisitParts, S.Keys, ObjectRule.ObjectExpr, S.PartsLoop, S.PartsRevisit, S.SharedEnum, S.Union, S.PartsProperties, S.PartsRequired, S.KeysWhere;
      match allOf
      case Together(parts) =>
        if S.PartsLoop(parts, refs) {
          halts := halts + {S.AllOfLoop};
          e := Lit("");
        } else {
          var shared := S.SharedEnum(parts, refs);
          if shared != [] {
            e := Cat(S.Union(S.Literals(shared)), Space());
          } else if S.PartsRevisit(parts, Ctx(chased)) {
            halts := halts + {S.AllOfLoop};
            e := Lit("");
          } else {
            var kv := VisitParts(parts, name, chased);
            var ps, required := S.PartsProperties(parts, refs), S.PartsRequired(parts, refs);
            e := ObjectRule.BuildObjectRule(store, name, kv, S.KeysWhere(ps, required, true), S.KeysWhere(ps, required, false) + []);
          }
        }
    }

    method VisitParts(parts: seq<S.Part>, name: string, chased: set<string>) returns (kv: ObjectRule.KvNames)
      requires !S.PartsRevisit(parts, Ctx(chased))
      modifies this, store
      ensures (State(), kv) == S.VisitParts(parts, name, map[], old(State()), Ctx(chased))
      decreases S.Left(Ctx(chased), State()), S.Unchased(Ctx(chased)), parts, 1
    {
      hide S.VisitPart;
      kv := map[];
      var i := 0;
      assert parts[0..] == parts;
      while i < |parts|
        invariant 0 <= i <= |parts| && being == old(being)
        invariant S.VisitParts(parts[i..], name, kv, State(), Ctx(chased)) == S.VisitParts(parts, name, map[], old(State()), Ctx(chased))
      {
        assert parts[i..][0] == parts[i] && parts[i..][1..] == parts[i + 1..];
        kv := VisitPart(parts[i], name, kv, chased);
        i := i + 1;
      }
    }

    method VisitPart(p: S.Part, name: string, start: ObjectRule.KvNames, chased: set<string>) returns (kv: ObjectRule.KvNames)
      requires !S.MembersRevisit(S.Members(p), Ctx(chased))
      modifies this, store
      ensures (State(), kv) == S.VisitPart(p, name, start, old(State()), Ctx(chased))
      decreases S.Left(Ctx(chased), State()), S.Unchased(Ctx(chased)), p, 0
    {
      hide S.VisitMember, S.VisitMembers;
      match p
      case Must(sub) => assert S.Members(p)[0] == sub; kv := VisitMember(sub, name, start, chased);
      case May(subs) => kv := VisitMembers(subs, name, start, chased);
    }

    method VisitMembers(cs: seq<S.Schema>, name: string, start: ObjectRule.KvNames, chased: set<string>) returns (kv: ObjectRule.KvNames)
      requires !S.MembersRevisit(cs, Ctx(chased))
      modifies this, store
      ensures (State(), kv) == S.VisitMembers(cs, name, start, old(State()), Ctx(chased))
      decreases S.Left(Ctx(chased), State()), S.Unchased(Ctx(chased)), cs, 1
    {
      hide S.VisitMember;
      kv := start;
      var i := 0;
      assert cs[0..] == cs;
      while i < |cs|
        invariant 0 <= i <= |cs| && being == old(being)
        invariant S.VisitMembers(cs[i..], name, kv, State(), Ctx(chased)) == S.VisitMembers(cs, name, start, old(State()), Ctx(chased))
      {
        assert cs[i..][0] == cs[i] && cs[i..][1..] == cs[i + 1..];
        kv := VisitMember(cs[i], name, kv, chased);
        i := i + 1;
      }
    }

    // The properties of a member, visited where its references lead.
    method VisitMember(c: S.Schema, name: string, start: ObjectRule.KvNames, chased: set<string>) returns (kv: ObjectRule.KvNames)
      requires !S.Revisits(c, Ctx(chased))
      modifies this, store
      ensures (State(), kv) == S.VisitMember(c, name, start, old(State()), Ctx(chased))
      decreases S.Left(Ctx(chased), State()), S.Unchased(Ctx(chased)), c, 4
    {
      hide S.VisitProperties, S.VisitMember, S.Follow, S.Revisits, S.Left, S.Unchased;
      S.MemberStep(c, name, start, State(), Ctx(chased));
      S.MemberShrinks(c, State(), Ctx(chased));
      kv := start;
      match S.Follow(c, refs) {
        case Found(sub, last) =>
          if sub.properties.Listed? {
            var via := if last.Some? then chased + {last.value} else chased;
            assert S.Via(Ctx(chased), last) == Ctx(via);
            kv := VisitProperties(sub.properties.list, name, start, via);
          }
        case Loops =>
        case Missing =>
      }
    }

    method VisitLeaf(s: S.Schema, ty: Option<string>, name: string) returns (key: string)
      modifies this, store
      ensures (State(), key) == S.VisitLeaf(s, ty, name, dotall, old(State()))
    {
      hide S.VisitInteger, UuidRule, Primitives.AddPrimitive, Format, Pattern.Translate, S.VisitUntyped, S.VisitLength, S.IsUuid;
      if S.Untyped(ty, "string") && s.pattern.Some? {
        var o := Pattern.VisitPattern(s.pattern.value, store.rules, Pattern.Config(S.RuleName(name), dotall));
        match o {
          case Translated(rules, ruleKey) =>
            store.rules := rules;
            key := ruleKey;
          case NoPattern => halts, key := halts + {S.Errors}, "";
          case NotCovered => halts, key := halts + {S.Uncovered}, "";
          case Diverges => halts, key := halts + {S.PatternLoop}, "";
        }
      } else if S.Untyped(ty, "string") && S.IsUuid(s.format) {
        key := AddPrimitive(S.TopName(name, s.format), UuidRule());
      } else if S.Untyped(ty, "string") && Format(s.format + "-string").Some? {
        var prim := AddPrimitive(s.format + "-string", Format(s.format + "-string").value);
        key := store.Add(S.RuleName(name), Ref(prim));
      } else if ty == Some("string") && (s.minLength.Some? || s.maxLength.Some?) {
        key := VisitLength(s, name);
      } else if ty == Some("integer") && (s.minimum.Some? || s.maximum.Some?) {
        var r := S.VisitInteger(s, name, State());
        store.rules, halts, key := r.0.rules, r.0.halts, r.1;
      } else {
        key := VisitUntyped(s, ty, name);
      }
    }

    method VisitLength(s: S.Schema, name: string) returns (key: string)
      modifies store
      ensures (State(), key) == S.VisitLength(s, name, old(State()))
    {
      hide CharRule, Primitives.AddPrimitive, Pattern.BuildRepetition;
      var charRule := AddPrimitive("char", CharRule());
      var lo := if s.minLength.Some? then s.minLength.value else 0;
      var chars := Pattern.BuildRepetition(Ref(charRule), lo, s.maxLength);
      key := store.Add(S.RuleName(name), CatAll([Lit("\""), chars, Lit("\""), Space()]));
    }

    method VisitUntyped(s: S.Schema, ty: Option<string>, name: string) returns (key: string)
      modifies this, store
      ensures (State(), key) == S.VisitUntyped(s, ty, name, old(State()))
    {
      hide AnyObjectRule, ValueRule, Primitives.AddPrimitive, Primitive, S.Empty;
      if ty == Some("object") || S.Empty(s) {
        var prim := AddPrimitive("object", AnyObjectRule());
        key := store.Add(S.RuleName(name), Ref(prim));
      } else if ty.None? {
        var prim := AddPrimitive("value", ValueRule());
        key := store.Add(S.RuleName(name), Ref(prim));
      } else if Primitive(ty.value).None? {
        halts := halts + {S.Errors};
        key := "";
      } else {
        key := AddPrimitive(S.TopName(name, ty.value), Primitive(ty.value).value);
      }
    }
  }
}
