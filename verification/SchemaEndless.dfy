/** When the conversion of a schema never returns.  References are resolved at most once at a time, but
    those of "allOf" members are followed without any guard: a member whose properties lead back to
    itself is collected again for ever. */
module SchemaEndless {
  import opened Basics
  import opened Gbnf
  import opened RuleStore
  import opened Primitives
  import opened Schema
  import Decimals
  import ObjectRule

  // ---------- what a visit meets before it resolves a reference ----------

  // An "allOf" with a member whose references never end, or a member that ends at a reference, whose
  // properties are then visited as well.
  datatype Meet = Stuck | At(ref: string)

  function Meets(s: Schema, refs: Refs): set<Meet>
    decreases s, 3
  {
    if s.ref.Some? then {}
    else if s.alternatives.AnyOf? then MeetsAll(s.alternatives.subs, refs)
    else
      match s.types
      case Several(ts) => MeetsTypes(s, ts, refs)
      case NoType => MeetsAs(s, None, refs)
      case One(t) => MeetsAs(s, Some(t), refs)
  }

  function MeetsAll(subs: seq<Schema>, refs: Refs): set<Meet>
    decreases subs, 0
  {
    if subs == [] then {} else Meets(subs[0], refs) + MeetsAll(subs[1..], refs)
  }

  function MeetsTypes(s: Schema, ts: seq<string>, refs: Refs): set<Meet>
    decreases s, 2, |ts|
  {
    if ts == [] then {} else MeetsAs(s, Some(ts[0]), refs) + MeetsTypes(s, ts[1..], refs)
  }

  function MeetsAs(s: Schema, ty: Option<string>, refs: Refs): set<Meet>
    decreases s, 1
  {
    if s.constant.Some? || s.enumerated.Some? then {}
    else if IsObject(s, ty) then MeetsListed(s, s.properties, refs) + MeetsExtra(s, s.additional, refs)
    else if IsAllOf(s, ty) then MeetsAllOf(s, s.allOf, refs)
    else if Untyped(ty, "array") && !s.items.NoItems? then MeetsItems(s, s.items, refs)
    else {}
  }

  function MeetsListed(s: Schema, properties: Properties, refs: Refs): set<Meet>
    requires properties == s.properties
    decreases s, 0
  {
    match properties
    case Listed(list) => MeetsProperties(list, refs)
    case NoProperties => {}
  }

  function MeetsExtra(s: Schema, additional: Additional, refs: Refs): set<Meet>
    requires additional == s.additional
    decreases s, 0
  {
    match additional
    case Extra(sub) => Meets(sub, refs)
    case Flag(_) => {}
    case Absent => {}
  }

  function MeetsItems(s: Schema, items: Items, refs: Refs): set<Meet>
    requires items == s.items
    decreases s, 0
  {
    match items
    case Tuple(subs) => MeetsAll(subs, refs)
    case Each(sub) => Meets(sub, refs)
    case NoItems => {}
  }

  function MeetsProperties(ps: seq<Property>, refs: Refs): set<Meet>
    decreases ps, 0
  {
    if ps == [] then {} else MeetsProperty(ps[0], refs) + MeetsProperties(ps[1..], refs)
  }

  function MeetsProperty(p: Property, refs: Refs): set<Meet>
    decreases p, 0
  {
    Meets(p.sub, refs)
  }

  // Shared constants are written without visiting the properties.
  function MeetsAllOf(s: Schema, allOf: AllOf, refs: Refs): set<Meet>
    requires allOf == s.allOf
    decreases s, 0
  {
    match allOf
    case Together(parts) =>
      if PartsLoop(parts, refs) then {Stuck}
      else if SharedEnum(parts, refs) != [] then {}
      else MeetsParts(parts, refs)
    case NoAllOf => {}
  }

  function MeetsParts(parts: seq<Part>, refs: Refs): set<Meet>
    decreases parts, 0
  {
    if parts == [] then {} else MeetsPart(parts[0], refs) + MeetsParts(parts[1..], refs)
  }

  function MeetsPart(p: Part, refs: Refs): set<Meet>
    decreases p, 0
  {
    match p
    case Must(sub) => MeetsMember(sub, refs)
    case May(subs) => MeetsMembers(subs, refs)
  }

  function MeetsMembers(cs: seq<Schema>, refs: Refs): set<Meet>
    decreases cs, 0
  {
    if cs == [] then {} else MeetsMember(cs[0], refs) + MeetsMembers(cs[1..], refs)
  }

  function MeetsMember(c: Schema, refs: Refs): set<Meet>
    decreases c, 4
  {
    match Follow(c, refs)
    case Found(sub, last) =>
      if last.Some? then (if sub.properties.Listed? then {At(last.value)} else {})
      else MeetsListed(c, c.properties, refs)
    case Loops => {}
    case Missing => {}
  }

  // What is met behind a reference at which a member ends.
  function Behind(ref: string, refs: Refs): set<Meet>
    requires ref in refs
  {
    MeetsListed(refs[ref], refs[ref].properties, refs)
  }

  // ---------- going round ----------

  // With the members at `chased` being visited, visiting this one never ends.
  predicate Bad(m: Meet, refs: Refs, chased: set<string>)
    decreases |refs.Keys - chased|
  {
    m.Stuck? ||
    (m.ref in refs &&
     (m.ref in chased || (OneFewer(refs, chased, m.ref); exists n :: n in Behind(m.ref, refs) && Bad(n, refs, chased + {m.ref}))))
  }

  lemma {:induction false} OneFewer(refs: Refs, chased: set<string>, ref: string)
    ensures ref in refs && ref !in chased ==> |refs.Keys - (chased + {ref})| < |refs.Keys - chased|
  {
    FewerLeft(refs.Keys - (chased + {ref}), refs.Keys - chased);
  }

  predicate Circles(ms: set<Meet>, refs: Refs, chased: set<string>) { exists m :: m in ms && Bad(m, refs, chased) }

  // Each reference of the set leads on to one of them, or to references that never end.
  ghost predicate Ring(ring: set<string>, refs: Refs) { RingBut(ring, {}, refs) }

  ghost predicate RingBut(ring: set<string>, chased: set<string>, refs: Refs) {
    forall r :: r in ring ==> r in refs && (r in chased || LeadsInto(Behind(r, refs), ring))
  }

  ghost predicate LeadsInto(ms: set<Meet>, ring: set<string>) { exists m :: m in ms && Into(m, ring) }

  predicate Into(m: Meet, ring: set<string>) { m.Stuck? || m.ref in ring }

  lemma {:induction false} BadHasRing(m: Meet, refs: Refs, chased: set<string>) returns (ring: set<string>)
    requires Bad(m, refs, chased)
    ensures RingBut(ring, chased, refs) && Into(m, ring)
    decreases |refs.Keys - chased|
  {
    hide Behind, RingBut;
    if m.Stuck? {
      ring := {};
      RingOf(ring, chased, refs);
    } else if m.ref in chased {
      ring := {m.ref};
      RingOf(ring, chased, refs);
    } else {
      OneFewer(refs, chased, m.ref);
      var n :| n in Behind(m.ref, refs) && Bad(n, refs, chased + {m.ref});
      var inner := BadHasRing(n, refs, chased + {m.ref});
      ring := inner + {m.ref};
      hide Bad;
      RingWith(m.ref, n, inner, chased, refs);
    }
  }

  lemma {:induction false} RingOf(ring: set<string>, chased: set<string>, refs: Refs)
    requires ring <= chased * refs.Keys
    ensures RingBut(ring, chased, refs)
  {
  }

  lemma {:induction false} RingWith(ref: string, n: Meet, inner: set<string>, chased: set<string>, refs: Refs)
    requires ref in refs && n in Behind(ref, refs) && Into(n, inner) && RingBut(inner, chased + {ref}, refs)
    ensures RingBut(inner + {ref}, chased, refs)
  {
    hide Behind;
    var ring := inner + {ref};
    forall r | r in ring ensures r in refs && (r in chased || LeadsInto(Behind(r, refs), ring)) {
      if r == ref {
        assert Into(n, ring);
      } else if r !in chased {
        var m :| m in Behind(r, refs) && Into(m, inner);
        assert Into(m, ring);
      }
    }
  }

  lemma {:induction false} RingIsBad(m: Meet, refs: Refs, chased: set<string>, ring: set<string>)
    requires Ring(ring, refs) && Into(m, ring)
    ensures Bad(m, refs, chased)
    decreases |refs.Keys - chased|
  {
    hide Behind;
    if m.At? && m.ref !in chased {
      OneFewer(refs, chased, m.ref);
      var n :| n in Behind(m.ref, refs) && Into(n, ring);
      RingIsBad(n, refs, chased + {m.ref}, ring);
    }
  }

  // A visit goes round exactly when it leads into a set of references that never leaves itself.
  lemma {:induction false} CirclesExact(ms: set<Meet>, refs: Refs)
    ensures Circles(ms, refs, {}) <==> exists ring: set<string> :: Ring(ring, refs) && LeadsInto(ms, ring)
  {
    hide Bad, RingBut;
    if m :| m in ms && Bad(m, refs, {}) {
      var ring := BadHasRing(m, refs, {});
      assert LeadsInto(ms, ring);
    }
    if ring: set<string> :| Ring(ring, refs) && LeadsInto(ms, ring) {
      var m :| m in ms && Into(m, ring);
      RingIsBad(m, refs, {}, ring);
    }
  }

  // ---------- the visits ----------

  ghost predicate SomeCircles(refs: Refs) { exists r :: r in refs && Circles(Meets(refs[r], refs), refs, {}) }

  // Between the two states the conversion has stopped returning if what is met goes round, and only then
  // or because the schema of a resolved reference does.
  ghost predicate Explained(before: set<Halt>, after: set<Halt>, ms: set<Meet>, ctx: Context) {
    && (AllOfLoop in after ==> AllOfLoop in before || Circles(ms, ctx.refs, ctx.chased) || SomeCircles(ctx.refs))
    && (Circles(ms, ctx.refs, ctx.chased) ==> AllOfLoop in after)
  }

  lemma {:induction false} NothingMet(before: set<Halt>, after: set<Halt>, ctx: Context)
    requires AllOfLoop in after ==> AllOfLoop in before || SomeCircles(ctx.refs)
    ensures Explained(before, after, {}, ctx)
  {
  }

  lemma {:induction false} InTurn(a: set<Halt>, b: set<Halt>, c: set<Halt>, ms: set<Meet>, ns: set<Meet>, ctx: Context)
    requires Explained(a, b, ms, ctx) && Explained(b, c, ns, ctx) && b <= c
    ensures Explained(a, c, ms + ns, ctx)
  {
    hide Bad, SomeCircles;
  }

  lemma {:induction false} Then(before: set<Halt>, after: set<Halt>, last: set<Halt>, ms: set<Meet>, ctx: Context)
    requires Explained(before, after, ms, ctx) && after <= last && (AllOfLoop in last ==> AllOfLoop in after)
    ensures Explained(before, last, ms, ctx)
  {
  }

  lemma {:induction false} VisitEndless(s: Schema, name: string, st: CState, ctx: Context)
    ensures Explained(st.halts, Visit(s, name, st, ctx).0.halts, Meets(s, ctx.refs), ctx)
    decreases Left(ctx, st), Unchased(ctx), s, 3
  {
    hide Explained, VisitAs, VisitAlternatives, VisitEachType, ResolveRef, MeetsAs, MeetsAll, MeetsTypes, Union, RuleName, Left, Unchased;
    if s.ref.Some? {
      ResolveEndless(s.ref.value, st, ctx, s);
    } else if s.alternatives.AnyOf? {
      AlternativesEndless(s.alternatives.subs, name, 0, st, ctx);
    } else {
      match s.types
      case Several(ts) => EachTypeEndless(s, ts, name, 0, st, ctx);
      case NoType => VisitAsEndless(s, None, name, st, ctx);
      case One(t) => VisitAsEndless(s, Some(t), name, st, ctx);
    }
  }

  lemma {:induction false} ResolveEndless(ref: string, st: CState, ctx: Context, at: Schema)
    ensures Explained(st.halts, ResolveRef(ref, st, ctx, at).0.halts, {}, ctx)
    decreases Left(ctx, st), Unchased(ctx), at, 2
  {
    hide Visit, VisitLeaf, RefName, Meets, Circles;
    var name := RefName(ref);
    if name !in st.rules && ref !in st.being && ref in ctx.refs {
      var st1 := st.(being := st.being + {ref});
      FewerLeft(ctx.refs.Keys - st1.being, ctx.refs.Keys - st.being);
      VisitEndless(ctx.refs[ref], name, st1, ctx.(chased := {}));
    }
    NothingMet(st.halts, ResolveRef(ref, st, ctx, at).0.halts, ctx);
  }

  lemma {:induction false} AlternativesEndless(subs: seq<Schema>, name: string, i: nat, st: CState, ctx: Context)
    ensures Explained(st.halts, VisitAlternatives(subs, name, i, st, ctx).0.halts, MeetsAll(subs, ctx.refs), ctx)
    decreases Left(ctx, st), Unchased(ctx), subs, 0
  {
    hide Explained, Visit, AlternativeName, Meets;
    if subs == [] {
      NothingMet(st.halts, st.halts, ctx);
    } else {
      var r := Visit(subs[0], AlternativeName(name, i), st, ctx);
      VisitEndless(subs[0], AlternativeName(name, i), st, ctx);
      AlternativesEndless(subs[1..], name, i + 1, r.0, ctx);
      var rest := VisitAlternatives(subs[1..], name, i + 1, r.0, ctx);
      InTurn(st.halts, r.0.halts, rest.0.halts, Meets(subs[0], ctx.refs), MeetsAll(subs[1..], ctx.refs), ctx);
    }
  }

  lemma {:induction false} EachTypeEndless(s: Schema, ts: seq<string>, name: string, i: nat, st: CState, ctx: Context)
    ensures Explained(st.halts, VisitEachType(s, ts, name, i, st, ctx).0.halts, MeetsTypes(s, ts, ctx.refs), ctx)
    decreases Left(ctx, st), Unchased(ctx), s, 2, |ts|
  {
    hide Explained, VisitAs, AlternativeName, MeetsAs;
    if ts == [] {
      NothingMet(st.halts, st.halts, ctx);
    } else {
      var r := VisitAs(s, Some(ts[0]), AlternativeName(name, i), st, ctx);
      VisitAsEndless(s, Some(ts[0]), AlternativeName(name, i), st, ctx);
      EachTypeEndless(s, ts[1..], name, i + 1, r.0, ctx);
      var rest := VisitEachType(s, ts[1..], name, i + 1, r.0, ctx);
      InTurn(st.halts, r.0.halts, rest.0.halts, MeetsAs(s, Some(ts[0]), ctx.refs), MeetsTypes(s, ts[1..], ctx.refs), ctx);
    }
  }

  lemma {:induction false} VisitAsEndless(s: Schema, ty: Option<string>, name: string, st: CState, ctx: Context)
    ensures Explained(st.halts, VisitAs(s, ty, name, st, ctx).0.halts, MeetsAs(s, ty, ctx.refs), ctx)
    decreases Left(ctx, st), Unchased(ctx), s, 1
  {
    hide Explained, VisitLeaf, VisitObject, VisitAllOf, VisitItems, Union, RuleName, MeetsListed, MeetsExtra, MeetsAllOf, MeetsItems, Left, Unchased;
    if s.constant.Some? || s.enumerated.Some? {
      NothingMet(st.halts, st.halts, ctx);
    } else if IsObject(s, ty) {
      ObjectEndless(s, PropertiesOf(s), name, st, ctx);
    } else if IsAllOf(s, ty) {
      AllOfEndless(s, s.allOf, name, st, ctx);
    } else if Untyped(ty, "array") && !s.items.NoItems? {
      ItemsEndless(s, s.items, name, st, ctx);
    } else {
      NothingMet(st.halts, VisitLeaf(s, ty, name, ctx.dotall, st).0.halts, ctx);
    }
  }

  lemma {:induction false} TupleEndless(subs: seq<Schema>, name: string, i: nat, st: CState, ctx: Context)
    ensures Explained(st.halts, VisitTuple(subs, name, i, st, ctx).0.halts, MeetsAll(subs, ctx.refs), ctx)
    decreases Left(ctx, st), Unchased(ctx), subs, 0
  {
    hide Explained, Visit, Under, Meets;
    if subs == [] {
      NothingMet(st.halts, st.halts, ctx);
    } else {
      var sub := Under(name, "tuple-" + Decimals.Decimal(i));
      var r := Visit(subs[0], sub, st, ctx);
      VisitEndless(subs[0], sub, st, ctx);
      TupleEndless(subs[1..], name, i + 1, r.0, ctx);
      var rest := VisitTuple(subs[1..], name, i + 1, r.0, ctx);
      InTurn(st.halts, r.0.halts, rest.0.halts, Meets(subs[0], ctx.refs), MeetsAll(subs[1..], ctx.refs), ctx);
    }
  }

  lemma {:induction false} ItemsEndless(s: Schema, items: Items, name: string, st: CState, ctx: Context)
    requires items == s.items && !items.NoItems?
    ensures Explained(st.halts, VisitItems(s, items, name, st, ctx).0.halts, MeetsItems(s, items, ctx.refs), ctx)
    decreases Left(ctx, st), Unchased(ctx), s, 0
  {
    hide Explained, Visit, VisitTuple, Bracketed, Separated, Under, Meets, MeetsAll;
    match items
    case Tuple(subs) => TupleEndless(subs, name, 0, st, ctx);
    case Each(sub) => VisitEndless(sub, Under(name, "item"), st, ctx);
  }

  lemma {:induction false} PropertyEndless(p: Property, name: string, st: CState, ctx: Context)
    ensures Explained(st.halts, VisitProperty(p, name, st, ctx).0.halts, MeetsProperty(p, ctx.refs), ctx)
    decreases Left(ctx, st), Unchased(ctx), p, 0
  {
    hide Explained, Visit, Under, KvExpr, Meets;
    VisitEndless(p.sub, Under(name, p.key), st, ctx);
  }

  lemma {:induction false} PropertiesEndless(ps: seq<Property>, name: string, kv: ObjectRule.KvNames, st: CState, ctx: Context)
    ensures Explained(st.halts, VisitProperties(ps, name, kv, st, ctx).0.halts, MeetsProperties(ps, ctx.refs), ctx)
    decreases Left(ctx, st), Unchased(ctx), ps, 0
  {
    hide Explained, VisitProperty, MeetsProperty, Keys;
    if ps == [] {
      NothingMet(st.halts, st.halts, ctx);
    } else {
      var r := VisitProperty(ps[0], name, st, ctx);
      PropertyEndless(ps[0], name, st, ctx);
      PropertiesEndless(ps[1..], name, kv[ps[0].key := r.1], r.0, ctx);
      var rest := VisitProperties(ps[1..], name, kv[ps[0].key := r.1], r.0, ctx);
      InTurn(st.halts, r.0.halts, rest.0.halts, MeetsProperty(ps[0], ctx.refs), MeetsProperties(ps[1..], ctx.refs), ctx);
    }
  }

  lemma {:induction false} ExtraEndless(s: Schema, additional: Additional, ps: seq<Property>, name: string, st: CState, ctx: Context)
    requires additional == s.additional && !additional.Absent?
    ensures Explained(st.halts, VisitExtra(s, additional, ps, name, st, ctx).0.halts, MeetsExtra(s, additional, ctx.refs), ctx)
    decreases Left(ctx, st), Unchased(ctx), s, 0, 0
  {
    hide Explained, Visit, ExtraKey, ValueRule, ExtraKvExpr, Under, Meets;
    match additional
    case Extra(sub) => VisitEndless(sub, Under(name, "additional") + "-value", st, ctx);
    case Flag(_) => NothingMet(st.halts, st.halts, ctx);
  }

  lemma {:induction false} ObjectEndless(s: Schema, ps: seq<Property>, name: string, st: CState, ctx: Context)
    requires ps == PropertiesOf(s)
    ensures Explained(st.halts, VisitObject(s, ps, name, st, ctx).0.halts,
                      MeetsListed(s, s.properties, ctx.refs) + MeetsExtra(s, s.additional, ctx.refs), ctx)
    decreases Left(ctx, st), Unchased(ctx), s, 0, 2
  {
    hide Explained, VisitProps, VisitExtra, Keys, Object, MeetsListed, MeetsExtra, PropertiesOf;
    PropsEndless(s, ps, name, st, ctx);
    var r := VisitProps(s, ps, name, st, ctx);
    if AllowsExtra(s) {
      ExtraEndless(s, s.additional, ps, name, r.0, ctx);
      var x := VisitExtra(s, s.additional, ps, name, r.0, ctx);
      InTurn(st.halts, r.0.halts, x.0.halts, MeetsListed(s, s.properties, ctx.refs), MeetsExtra(s, s.additional, ctx.refs), ctx);
    } else {
      NoExtra(s, ctx.refs);
      NothingMet(r.0.halts, r.0.halts, ctx);
      InTurn(st.halts, r.0.halts, r.0.halts, MeetsListed(s, s.properties, ctx.refs), {}, ctx);
    }
  }

  lemma {:induction false} NoExtra(s: Schema, refs: Refs)
    requires !AllowsExtra(s)
    ensures MeetsExtra(s, s.additional, refs) == {}
  {
  }

  lemma {:induction false} PropsEndless(s: Schema, ps: seq<Property>, name: string, st: CState, ctx: Context)
    requires ps == PropertiesOf(s)
    ensures Explained(st.halts, VisitProps(s, ps, name, st, ctx).0.halts, MeetsListed(s, s.properties, ctx.refs), ctx)
    decreases Left(ctx, st), Unchased(ctx), s, 0, 0
  {
    hide Explained, VisitProperties, MeetsProperties, Keys;
    match s.properties
    case Listed(list) => PropertiesEndless(list, name, map[], st, ctx);
    case NoProperties => NothingMet(st.halts, st.halts, ctx);
  }

  lemma {:induction false} MemberEndless(c: Schema, name: string, kv: ObjectRule.KvNames, st: CState, ctx: Context)
    requires !Revisits(c, ctx)
    ensures Explained(st.halts, VisitMember(c, name, kv, st, ctx).0.halts, MeetsMember(c, ctx.refs), ctx)
    decreases Left(ctx, st), Unchased(ctx), c, 4
  {
    hide Explained, VisitProperties, VisitMember, Follow, Revisits, Left, Unchased, Via, Keys, MeetsProperties, MeetsListed;
    var m := Follow(c, ctx.refs);
    MemberStep(c, name, kv, st, ctx);
    MemberShrinks(c, st, ctx);
    FoundWhere(c, ctx.refs);
    if m.Found? && m.sub.properties.Listed? {
      var list := m.sub.properties.list;
      PropertiesEndless(list, name, kv, st, Via(ctx, m.last));
      ListedIs(m.sub, ctx.refs);
      if m.last.Some? {
        FreshMember(c, ctx);
        ViaRefs(ctx, m.last);
        assert Behind(m.last.value, ctx.refs) == MeetsProperties(list, ctx.refs);
        MeetsThere(m.last.value, st.halts, VisitProperties(list, name, kv, st, Via(ctx, m.last)).0.halts, ctx);
      }
    } else {
      NothingMet(st.halts, st.halts, ctx);
      if m.Found? && m.last.None? { NoneListed(m.sub, ctx.refs); }
    }
  }

  lemma {:induction false} ViaRefs(ctx: Context, last: Option<string>)
    ensures Via(ctx, last).refs == ctx.refs
  {
  }

  lemma {:induction false} FoundWhere(c: Schema, refs: Refs)
    ensures var m := Follow(c, refs);
            m.Found? ==> (m.last.None? ==> m.sub == c) && (m.last.Some? ==> m.last.value in refs && m.sub == refs[m.last.value])
  {
    hide Chase;
  }

  lemma {:induction false} ListedIs(s: Schema, refs: Refs)
    requires s.properties.Listed?
    ensures MeetsListed(s, s.properties, refs) == MeetsProperties(s.properties.list, refs)
  {
    hide MeetsProperties;
  }

  lemma {:induction false} NoneListed(s: Schema, refs: Refs)
    requires !s.properties.Listed?
    ensures MeetsListed(s, s.properties, refs) == {}
  {
  }

  lemma {:induction false} FreshMember(c: Schema, ctx: Context)
    requires !Revisits(c, ctx)
    ensures var m := Follow(c, ctx.refs);
            m.Found? && m.sub.properties.Listed? && m.last.Some? ==> m.last.value !in ctx.chased
  {
    hide Follow;
  }

  // Visiting the properties behind a reference is meeting the reference.
  lemma {:induction false} MeetsThere(ref: string, before: set<Halt>, after: set<Halt>, ctx: Context)
    requires ref in ctx.refs && ref !in ctx.chased && Explained(before, after, Behind(ref, ctx.refs), Via(ctx, Some(ref)))
    ensures Explained(before, after, {At(ref)}, ctx)
  {
    hide Behind, SomeCircles;
    assert At(ref) in {At(ref)};
    OneFewer(ctx.refs, ctx.chased, ref);
    assert Bad(At(ref), ctx.refs, ctx.chased) <==> Circles(Behind(ref, ctx.refs), ctx.refs, ctx.chased + {ref});
  }

  lemma {:induction false} MembersEndless(cs: seq<Schema>, name: string, kv: ObjectRule.KvNames, st: CState, ctx: Context)
    requires !MembersRevisit(cs, ctx)
    ensures Explained(st.halts, VisitMembers(cs, name, kv, st, ctx).0.halts, MeetsMembers(cs, ctx.refs), ctx)
    decreases Left(ctx, st), Unchased(ctx), cs, 0
  {
    hide Explained, VisitMember, MeetsMember, Revisits, Keys, MemberProperties;
    if cs == [] {
      NothingMet(st.halts, st.halts, ctx);
    } else {
      var r := VisitMember(cs[0], name, kv, st, ctx);
      MemberEndless(cs[0], name, kv, st, ctx);
      MembersEndless(cs[1..], name, r.1, r.0, ctx);
      var rest := VisitMembers(cs[1..], name, r.1, r.0, ctx);
      InTurn(st.halts, r.0.halts, rest.0.halts, MeetsMember(cs[0], ctx.refs), MeetsMembers(cs[1..], ctx.refs), ctx);
    }
  }

  lemma {:induction false} PartEndless(p: Part, name: string, kv: ObjectRule.KvNames, st: CState, ctx: Context)
    requires !MembersRevisit(Members(p), ctx)
    ensures Explained(st.halts, VisitPart(p, name, kv, st, ctx).0.halts, MeetsPart(p, ctx.refs), ctx)
    decreases Left(ctx, st), Unchased(ctx), p, 0
  {
    hide Explained, VisitMember, VisitMembers, MeetsMember, MeetsMembers, Revisits, Keys;
    match p
    case Must(sub) => assert Members(p)[0] == sub; MemberEndless(sub, name, kv, st, ctx);
    case May(subs) => MembersEndless(subs, name, kv, st, ctx);
  }

  lemma {:induction false} PartsEndless(parts: seq<Part>, name: string, kv: ObjectRule.KvNames, st: CState, ctx: Context)
    requires !PartsRevisit(parts, ctx)
    ensures Explained(st.halts, VisitParts(parts, name, kv, st, ctx).0.halts, MeetsParts(parts, ctx.refs), ctx)
    decreases Left(ctx, st), Unchased(ctx), parts, 0
  {
    hide Explained, VisitPart, MeetsPart, MembersRevisit, Keys, PartProperties;
    if parts == [] {
      NothingMet(st.halts, st.halts, ctx);
    } else {
      var r := VisitPart(parts[0], name, kv, st, ctx);
      PartEndless(parts[0], name, kv, st, ctx);
      PartsEndless(parts[1..], name, r.1, r.0, ctx);
      var rest := VisitParts(parts[1..], name, r.1, r.0, ctx);
      InTurn(st.halts, r.0.halts, rest.0.halts, MeetsPart(parts[0], ctx.refs), MeetsParts(parts[1..], ctx.refs), ctx);
    }
  }

  // A member that is being visited already is met again.
  lemma {:induction false} RevisitMet(parts: seq<Part>, ctx: Context)
    requires PartsRevisit(parts, ctx)
    ensures Circles(MeetsParts(parts, ctx.refs), ctx.refs, ctx.chased)
  {
    hide Follow, Bad;
    var i :| 0 <= i < |parts| && MembersRevisit(Members(parts[i]), ctx);
    var j :| 0 <= j < |Members(parts[i])| && Revisits(Members(parts[i])[j], ctx);
    var c := Members(parts[i])[j];
    var ref := Follow(c, ctx.refs).last.value;
    FoundWhere(c, ctx.refs);
    MemberMet(parts, i, j, ctx.refs);
    AtIsBad(ref, ctx);
    assert At(ref) in MeetsMember(c, ctx.refs);
  }

  lemma {:induction false} AtIsBad(ref: string, ctx: Context)
    requires ref in ctx.refs && ref in ctx.chased
    ensures Bad(At(ref), ctx.refs, ctx.chased)
  {
  }

  lemma {:induction false} MemberMet(parts: seq<Part>, i: nat, j: nat, refs: Refs)
    requires i < |parts| && j < |Members(parts[i])|
    ensures MeetsMember(Members(parts[i])[j], refs) <= MeetsParts(parts, refs)
  {
    hide MeetsMember;
    if i > 0 {
      MemberMet(parts[1..], i - 1, j, refs);
    } else {
      match parts[0]
      case Must(sub) =>
      case May(subs) => OneMember(subs, j, refs);
    }
  }

  lemma {:induction false} OneMember(cs: seq<Schema>, j: nat, refs: Refs)
    requires j < |cs|
    ensures MeetsMember(cs[j], refs) <= MeetsMembers(cs, refs)
  {
    hide MeetsMember;
    if j > 0 { OneMember(cs[1..], j - 1, refs); }
  }

  lemma {:induction false} AllOfEndless(s: Schema, allOf: AllOf, name: string, st: CState, ctx: Context)
    requires allOf == s.allOf && allOf.Together?
    ensures Explained(st.halts, VisitAllOf(s, allOf, name, st, ctx).0.halts, MeetsAllOf(s, allOf, ctx.refs), ctx)
    decreases Left(ctx, st), Unchased(ctx), s, 0, 2
  {
    hide VisitParts, Keys, SharedEnum, PartsLoop, PartsRevisit, PartsProperties, PartsRequired, Union, Literals, MeetsParts, Object;
    match allOf
    case Together(parts) =>
      if PartsLoop(parts, ctx.refs) {
        assert Stuck in {Stuck} && Bad(Stuck, ctx.refs, ctx.chased);
      } else if SharedEnum(parts, ctx.refs) != [] {
        NothingMet(st.halts, st.halts, ctx);
      } else if PartsRevisit(parts, ctx) {
        RevisitMet(parts, ctx);
      } else {
        hide Explained;
        PartsEndless(parts, name, map[], st, ctx);
      }
  }

  // ---------- the whole conversion ----------

  ghost predicate EndlessAt(s: Schema, refs: Refs) {
    exists ring: set<string> :: Ring(ring, refs) && LeadsInto(Meets(s, refs), ring)
  }

  // Main result: a conversion whose schema leads into a ring of "allOf" members never returns, and one
  // that never returns has such a ring behind its schema or behind one of the references.
  lemma {:induction false} NeverReturns(s: Schema, refs: Refs, dotall: bool)
    ensures var halts := Convert(s, Context(refs, dotall, {})).0.halts;
            && (EndlessAt(s, refs) ==> AllOfLoop in halts)
            && (AllOfLoop in halts ==> EndlessAt(s, refs) || exists r :: r in refs && EndlessAt(refs[r], refs))
  {
    hide Visit, Meets, Circles, Ring, LeadsInto;
    VisitEndless(s, "", START, Context(refs, dotall, {}));
    CirclesExact(Meets(s, refs), refs);
    forall r | r in refs ensures Circles(Meets(refs[r], refs), refs, {}) <==> EndlessAt(refs[r], refs) {
      CirclesExact(Meets(refs[r], refs), refs);
    }
  }

  // Without a ring, and without references that only name one another, every conversion returns.
  lemma {:induction false} ReturnsWithoutRings(s: Schema, refs: Refs, dotall: bool)
    requires Stuck !in Meets(s, refs) && forall r :: r in refs ==> Stuck !in Meets(refs[r], refs)
    requires forall ring: set<string> :: Ring(ring, refs) ==> ring == {}
    ensures AllOfLoop !in Convert(s, Context(refs, dotall, {})).0.halts
  {
    hide Visit, Meets, Ring;
    NeverReturns(s, refs, dotall);
  }

  // ---------- an input ----------

  const SELF := "#/$defs/A"

  // {"allOf": [{"$ref": "#/$defs/A"}]}
  function Again(): Schema { EMPTY.(allOf := Together([Must(EMPTY.(ref := Some(SELF)))])) }

  // {"properties": {"x": {"allOf": [{"$ref": "#/$defs/A"}]}}}
  function Holder(): Schema { EMPTY.(properties := Listed([Property("x", Again())])) }

  lemma {:induction false} SelfFollowed(refs: Refs)
    requires refs == map[SELF := Holder()]
    ensures Follow(EMPTY.(ref := Some(SELF)), refs) == Found(Holder(), Some(SELF))
  {
    assert Chase(Holder(), refs, {} + {SELF}) == Found(Holder(), None);
  }

  lemma {:induction false} SelfMet(refs: Refs)
    requires refs == map[SELF := Holder()]
    ensures Meets(Again(), refs) == {At(SELF)} && Behind(SELF, refs) == {At(SELF)}
  {
    var c := EMPTY.(ref := Some(SELF));
    var parts := [Must(c)];
    SelfFollowed(refs);
    hide Follow;
    assert MeetsMember(c, refs) == {At(SELF)};
    assert parts[1..] == [] && MeetsParts(parts, refs) == {At(SELF)};
    assert !PartsLoop(parts, refs);
    assert MemberEnum(c, refs) == [];
    assert MembersEnum([c], refs) == [] by { assert [c][1..] == []; }
    assert PartsEnum(parts, refs) == [];
    assert CountedTimes([], [], |parts|) == [];
    assert SharedEnum(parts, refs) == [];
    assert Meets(Again(), refs) == {At(SELF)};
    var ps := [Property("x", Again())];
    assert ps[1..] == [] && MeetsProperties(ps, refs) == {At(SELF)};
  }

  // With "#/$defs/A" holding a property that is an "allOf" of itself, the conversion never returns.
  lemma {:induction false} AllOfSelfNeverReturns(dotall: bool)
    ensures AllOfLoop in Convert(Again(), Context(map[SELF := Holder()], dotall, {})).0.halts
  {
    var refs := map[SELF := Holder()];
    SelfMet(refs);
    hide Meets, Behind, Visit;
    assert Into(At(SELF), {SELF});
    assert LeadsInto(Behind(SELF, refs), {SELF}) && Ring({SELF}, refs) && LeadsInto(Meets(Again(), refs), {SELF});
    NeverReturns(Again(), refs, dotall);
  }
}
