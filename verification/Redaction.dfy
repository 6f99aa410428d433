/** Node-side redaction of JSON bodies in waf-capture (capture.rs, lib.rs). */
module Redaction {
  import opened Prelude

  datatype Member = Member(key: string, value: Json)
  datatype Json =
    | Null
    | Bool(b: bool)
    | Number(text: string)
    | Str(s: string)
    | Arr(items: seq<Json>)
    | Obj(members: seq<Member>)

  const REDACTED := "***REDACTED***"

  /** `eq_ignore_ascii_case`. */
  predicate SameName(a: string, b: string) { Lower(a) == Lower(b) }

  predicate Listed(fields: seq<string>, name: string) { exists i :: 0 <= i < |fields| && SameName(fields[i], name) }

  lemma SameNameIff(a: string, b: string)
    ensures SameName(a, b) <==> SameLetters(a, b)
  {
    SameLowerIff(a, b);
  }

  /** A name is listed exactly when some entry has the same letters. */
  lemma ListedIff(fields: seq<string>, name: string)
    ensures Listed(fields, name) <==> exists i :: 0 <= i < |fields| && SameLetters(fields[i], name)
  {
    forall i | 0 <= i < |fields| ensures SameName(fields[i], name) <==> SameLetters(fields[i], name) {
      SameNameIff(fields[i], name);
    }
  }

  function PushUnique(names: seq<string>, name: string): seq<string> {
    if Listed(names, name) then names else names + [name]
  }

  function PushAll(names: seq<string>, more: seq<string>): seq<string> {
    if more == [] then names else PushUnique(PushAll(names, more[..|more| - 1]), more[|more| - 1])
  }

  // ── what redaction yields ─────────────────────────────────────────────────────────────────────

  function Clean(v: Json, fields: seq<string>): Json
    decreases v, 1
  {
    match v
    case Obj(members) => Obj(CleanMembers(members, fields))
    case Arr(items) => Arr(CleanItems(items, fields))
    case _ => v
  }

  function CleanMembers(ms: seq<Member>, fields: seq<string>): (r: seq<Member>)
    ensures |r| == |ms|
    decreases ms, 0
  {
    if ms == [] then []
    else
      var m := ms[|ms| - 1];
      CleanMembers(ms[..|ms| - 1], fields)
      + [Member(m.key, if Listed(fields, m.key) then Str(REDACTED) else Clean(m.value, fields))]
  }

  function CleanItems(vs: seq<Json>, fields: seq<string>): (r: seq<Json>)
    ensures |r| == |vs|
    decreases vs, 0
  {
    if vs == [] then [] else CleanItems(vs[..|vs| - 1], fields) + [Clean(vs[|vs| - 1], fields)]
  }

  /** The listed keys met, in traversal order. */
  function Hits(v: Json, fields: seq<string>): seq<string>
    decreases v, 1
  {
    match v
    case Obj(members) => MemberHits(members, fields)
    case Arr(items) => ItemHits(items, fields)
    case _ => []
  }

  function MemberHits(ms: seq<Member>, fields: seq<string>): seq<string>
    decreases ms, 0
  {
    if ms == [] then []
    else
      var m := ms[|ms| - 1];
      MemberHits(ms[..|ms| - 1], fields) + if Listed(fields, m.key) then [m.key] else Hits(m.value, fields)
  }

  function ItemHits(vs: seq<Json>, fields: seq<string>): seq<string>
    decreases vs, 0
  {
    if vs == [] then [] else ItemHits(vs[..|vs| - 1], fields) + Hits(vs[|vs| - 1], fields)
  }

  lemma {:induction false} PushAllConcat(names: seq<string>, a: seq<string>, b: seq<string>)
    ensures PushAll(names, a + b) == PushAll(PushAll(names, a), b)
    decreases |b|
  {
    if b == [] {
      assert a + b == a;
    } else {
      PushAllConcat(names, a, b[..|b| - 1]);
      assert (a + b)[..|a + b| - 1] == a + b[..|b| - 1];
    }
  }

  method RedactJson(v: Json, fields: seq<string>, names: seq<string>) returns (v': Json, names': seq<string>)
    ensures v' == Clean(v, fields) && names' == PushAll(names, Hits(v, fields))
    decreases v
  {
    names' := names;
    match v {
      case Obj(members) =>
        var out: seq<Member> := [];
        for i := 0 to |members|
          invariant out == CleanMembers(members[..i], fields)
          invariant names' == PushAll(names, MemberHits(members[..i], fields))
        {
          var m := members[i];
          assert members[..i + 1][..i] == members[..i];
          if Listed(fields, m.key) {
            PushAllConcat(names, MemberHits(members[..i], fields), [m.key]);
            names' := PushUnique(names', m.key);
            out := out + [Member(m.key, Str(REDACTED))];
          } else {
            PushAllConcat(names, MemberHits(members[..i], fields), Hits(m.value, fields));
            var w;
            w, names' := RedactJson(m.value, fields, names');
            out := out + [Member(m.key, w)];
          }
        }
        assert members[..|members|] == members;
        v' := Obj(out);
      case Arr(items) =>
        var out: seq<Json> := [];
        for i := 0 to |items|
          invariant out == CleanItems(items[..i], fields)
          invariant names' == PushAll(names, ItemHits(items[..i], fields))
        {
          assert items[..i + 1][..i] == items[..i];
          PushAllConcat(names, ItemHits(items[..i], fields), Hits(items[i], fields));
          var w;
          w, names' := RedactJson(items[i], fields, names');
          out := out + [w];
        }
        assert items[..|items|] == items;
        v' := Arr(out);
      case _ =>
        v' := v;
    }
  }

  // ── redaction hides exactly the listed values ─────────────────────────────────────────────────

  /** The two trees differ at most beneath listed keys. */
  predicate Alike(v: Json, w: Json, fields: seq<string>)
    decreases v, 1
  {
    match (v, w)
    case (Obj(a), Obj(b)) => AlikeMembers(a, b, fields)
    case (Arr(a), Arr(b)) => AlikeItems(a, b, fields)
    case (_, _) => v == w
  }

  predicate AlikeMembers(a: seq<Member>, b: seq<Member>, fields: seq<string>)
    decreases a, 0
  {
    if a == [] || b == [] then |a| == |b|
    else
      var x, y := a[|a| - 1], b[|b| - 1];
      && AlikeMembers(a[..|a| - 1], b[..|b| - 1], fields)
      && x.key == y.key
      && (Listed(fields, x.key) || Alike(x.value, y.value, fields))
  }

  predicate AlikeItems(a: seq<Json>, b: seq<Json>, fields: seq<string>)
    decreases a, 0
  {
    if a == [] || b == [] then |a| == |b|
    else AlikeItems(a[..|a| - 1], b[..|b| - 1], fields) && Alike(a[|a| - 1], b[|b| - 1], fields)
  }

  /**
    Two bodies redact to the same tree exactly when they differ only beneath listed keys, and then name
    the same keys.
  */
  lemma {:induction false} RedactionHidesExactly(v: Json, w: Json, fields: seq<string>)
    ensures Clean(v, fields) == Clean(w, fields) <==> Alike(v, w, fields)
    ensures Alike(v, w, fields) ==> Hits(v, fields) == Hits(w, fields)
    decreases v, 1
  {
    match (v, w) {
      case (Obj(a), Obj(b)) => MembersHideExactly(a, b, fields);
      case (Arr(a), Arr(b)) => ItemsHideExactly(a, b, fields);
      case (_, _) =>
    }
  }

  lemma {:induction false} MembersHideExactly(a: seq<Member>, b: seq<Member>, fields: seq<string>)
    ensures CleanMembers(a, fields) == CleanMembers(b, fields) <==> AlikeMembers(a, b, fields)
    ensures AlikeMembers(a, b, fields) ==> MemberHits(a, fields) == MemberHits(b, fields)
    decreases a, 0
  {
    if a != [] && b != [] {
      MembersHideExactly(a[..|a| - 1], b[..|b| - 1], fields);
      RedactionHidesExactly(a[|a| - 1].value, b[|b| - 1].value, fields);
      SplitLast(CleanMembers(a, fields), CleanMembers(b, fields));
    }
  }

  lemma {:induction false} ItemsHideExactly(a: seq<Json>, b: seq<Json>, fields: seq<string>)
    ensures CleanItems(a, fields) == CleanItems(b, fields) <==> AlikeItems(a, b, fields)
    ensures AlikeItems(a, b, fields) ==> ItemHits(a, fields) == ItemHits(b, fields)
    decreases a, 0
  {
    if a != [] && b != [] {
      ItemsHideExactly(a[..|a| - 1], b[..|b| - 1], fields);
      RedactionHidesExactly(a[|a| - 1], b[|b| - 1], fields);
      SplitLast(CleanItems(a, fields), CleanItems(b, fields));
    }
  }

  lemma SplitLast<T>(a: seq<T>, b: seq<T>)
    requires a != [] && b != []
    ensures a == b <==> a[..|a| - 1] == b[..|b| - 1] && a[|a| - 1] == b[|b| - 1]
  {
    assert a == a[..|a| - 1] + [a[|a| - 1]] && b == b[..|b| - 1] + [b[|b| - 1]];
  }

  // ── once is enough ────────────────────────────────────────────────────────────────────────────

  /** A redacted body differs from the original only beneath listed keys, so redacting it again changes nothing. */
  lemma {:induction false} CleanIsAlike(v: Json, fields: seq<string>)
    ensures Alike(Clean(v, fields), v, fields)
    decreases v, 1
  {
    match v {
      case Obj(members) => CleanMembersAlike(members, fields);
      case Arr(items) => CleanItemsAlike(items, fields);
      case _ =>
    }
  }

  lemma {:induction false} CleanMembersAlike(ms: seq<Member>, fields: seq<string>)
    ensures AlikeMembers(CleanMembers(ms, fields), ms, fields)
    decreases ms, 0
  {
    if ms != [] {
      CleanMembersAlike(ms[..|ms| - 1], fields);
      CleanIsAlike(ms[|ms| - 1].value, fields);
      var r := CleanMembers(ms, fields);
      assert r[..|r| - 1] == CleanMembers(ms[..|ms| - 1], fields);
    }
  }

  lemma {:induction false} CleanItemsAlike(vs: seq<Json>, fields: seq<string>)
    ensures AlikeItems(CleanItems(vs, fields), vs, fields)
    decreases vs, 0
  {
    if vs != [] {
      CleanItemsAlike(vs[..|vs| - 1], fields);
      CleanIsAlike(vs[|vs| - 1], fields);
      var r := CleanItems(vs, fields);
      assert r[..|r| - 1] == CleanItems(vs[..|vs| - 1], fields);
    }
  }

  lemma RedactionIsIdempotent(v: Json, fields: seq<string>)
    ensures Clean(Clean(v, fields), fields) == Clean(v, fields)
    ensures Hits(Clean(v, fields), fields) == Hits(v, fields)
  {
    CleanIsAlike(v, fields);
    RedactionHidesExactly(Clean(v, fields), v, fields);
  }

  // ── the redacted tree is determined ───────────────────────────────────────────────────────────

  /** Every listed member that can be reached holds the placeholder. */
  predicate Sealed(v: Json, fields: seq<string>)
    decreases v, 1
  {
    match v
    case Obj(members) => SealedMembers(members, fields)
    case Arr(items) => SealedItems(items, fields)
    case _ => true
  }

  predicate SealedMembers(ms: seq<Member>, fields: seq<string>)
    decreases ms, 0
  {
    ms == []
    || var m := ms[|ms| - 1];
       && SealedMembers(ms[..|ms| - 1], fields)
       && if Listed(fields, m.key) then m.value == Str(REDACTED) else Sealed(m.value, fields)
  }

  predicate SealedItems(vs: seq<Json>, fields: seq<string>)
    decreases vs, 0
  {
    vs == [] || (SealedItems(vs[..|vs| - 1], fields) && Sealed(vs[|vs| - 1], fields))
  }

  lemma {:induction false} SealedIffFixed(v: Json, fields: seq<string>)
    ensures Sealed(v, fields) <==> Clean(v, fields) == v
    decreases v, 1
  {
    match v {
      case Obj(members) => SealedMembersIffFixed(members, fields);
      case Arr(items) => SealedItemsIffFixed(items, fields);
      case _ =>
    }
  }

  lemma {:induction false} SealedMembersIffFixed(ms: seq<Member>, fields: seq<string>)
    ensures SealedMembers(ms, fields) <==> CleanMembers(ms, fields) == ms
    decreases ms, 0
  {
    if ms != [] {
      SealedMembersIffFixed(ms[..|ms| - 1], fields);
      SealedIffFixed(ms[|ms| - 1].value, fields);
      SplitLast(CleanMembers(ms, fields), ms);
    }
  }

  lemma {:induction false} SealedItemsIffFixed(vs: seq<Json>, fields: seq<string>)
    ensures SealedItems(vs, fields) <==> CleanItems(vs, fields) == vs
    decreases vs, 0
  {
    if vs != [] {
      SealedItemsIffFixed(vs[..|vs| - 1], fields);
      SealedIffFixed(vs[|vs| - 1], fields);
      SplitLast(CleanItems(vs, fields), vs);
    }
  }

  /** Redaction yields the one tree that holds the placeholder at every listed key and is otherwise the body. */
  lemma CleanIsTheSealedCopy(v: Json, w: Json, fields: seq<string>)
    ensures w == Clean(v, fields) <==> Sealed(w, fields) && Alike(w, v, fields)
  {
    CleanIsAlike(v, fields);
    RedactionIsIdempotent(v, fields);
    RedactionHidesExactly(w, v, fields);
    SealedIffFixed(w, fields);
  }

  lemma {:induction false} CleanMemberAt(ms: seq<Member>, fields: seq<string>, i: nat)
    requires i < |ms|
    ensures var m, r := ms[i], CleanMembers(ms, fields)[i];
            r == Member(m.key, if Listed(fields, m.key) then Str(REDACTED) else Clean(m.value, fields))
    decreases |ms|
  {
    if i < |ms| - 1 {
      CleanMemberAt(ms[..|ms| - 1], fields, i);
    }
  }

  /** A member keeps its key, and shows the placeholder if and only if some entry of the list has its letters. */
  lemma MemberIsHiddenIff(ms: seq<Member>, fields: seq<string>, i: nat)
    requires i < |ms|
    ensures var m, r := ms[i], CleanMembers(ms, fields)[i];
            && r.key == m.key
            && (if exists j :: 0 <= j < |fields| && SameLetters(fields[j], m.key) then r.value == Str("***REDACTED***")
                else r.value == Clean(m.value, fields))
  {
    CleanMemberAt(ms, fields, i);
    ListedIff(fields, ms[i].key);
  }

  // ── the banner lists each name once ───────────────────────────────────────────────────────────

  /** Some member of the tree, not itself beneath a listed key, has the listed key `k`. */
  predicate Holds(v: Json, k: string, fields: seq<string>)
    decreases v, 0
  {
    match v
    case Obj(members) => exists i :: 0 <= i < |members| && MemberHolds(members[i], k, fields)
    case Arr(items) => exists i :: 0 <= i < |items| && Holds(items[i], k, fields)
    case _ => false
  }

  predicate MemberHolds(m: Member, k: string, fields: seq<string>)
    decreases m, 1
  {
    if Listed(fields, m.key) then m.key == k else Holds(m.value, k, fields)
  }

  lemma {:induction false} HitsExact(v: Json, k: string, fields: seq<string>)
    ensures k in Hits(v, fields) <==> Holds(v, k, fields)
    decreases v, 1
  {
    match v {
      case Obj(members) => MemberHitsExact(members, k, fields);
      case Arr(items) => ItemHitsExact(items, k, fields);
      case _ =>
    }
  }

  lemma {:induction false} MemberHitsExact(ms: seq<Member>, k: string, fields: seq<string>)
    ensures k in MemberHits(ms, fields) <==> Holds(Obj(ms), k, fields)
    decreases ms, 0
  {
    if ms != [] {
      MemberHitsExact(ms[..|ms| - 1], k, fields);
      HitsExact(ms[|ms| - 1].value, k, fields);
      HoldsLast(ms, k, fields);
    }
  }

  lemma HoldsLast(ms: seq<Member>, k: string, fields: seq<string>)
    requires ms != []
    ensures var init, last := ms[..|ms| - 1], ms[|ms| - 1];
            Holds(Obj(ms), k, fields) <==> Holds(Obj(init), k, fields) || MemberHolds(last, k, fields)
  {
    var init := ms[..|ms| - 1];
    if i :| 0 <= i < |init| && MemberHolds(init[i], k, fields) {
      assert MemberHolds(ms[i], k, fields);
    }
    if i :| 0 <= i < |ms| && MemberHolds(ms[i], k, fields) {
      assert i < |init| ==> MemberHolds(init[i], k, fields);
    }
  }

  lemma {:induction false} ItemHitsExact(vs: seq<Json>, k: string, fields: seq<string>)
    ensures k in ItemHits(vs, fields) <==> Holds(Arr(vs), k, fields)
    decreases vs, 0
  {
    if vs != [] {
      var init := vs[..|vs| - 1];
      ItemHitsExact(init, k, fields);
      HitsExact(vs[|vs| - 1], k, fields);
      if Holds(Arr(init), k, fields) {
        var i :| 0 <= i < |init| && Holds(init[i], k, fields);
        assert vs[i] == init[i];
      }
      if Holds(Arr(vs), k, fields) {
        var i :| 0 <= i < |vs| && Holds(vs[i], k, fields);
        assert i < |init| ==> init[i] == vs[i];
      }
    }
  }

  predicate DistinctNames(names: seq<string>) {
    forall i, j :: 0 <= i < j < |names| ==> !SameName(names[i], names[j])
  }

  lemma ListedGrows(names: seq<string>, extra: seq<string>, name: string)
    requires Listed(names, name)
    ensures Listed(names + extra, name)
  {
    var i :| 0 <= i < |names| && SameName(names[i], name);
    assert (names + extra)[i] == names[i];
  }

  /** Names stay distinct up to case, and a name is listed exactly if it was before or was pushed. */
  lemma {:induction false} PushAllExact(names: seq<string>, more: seq<string>, name: string)
    ensures DistinctNames(names) ==> DistinctNames(PushAll(names, more))
    ensures Listed(PushAll(names, more), name) <==> Listed(names, name) || Listed(more, name)
    decreases |more|
  {
    if more != [] {
      var init, last := more[..|more| - 1], more[|more| - 1];
      PushAllExact(names, init, name);
      assert more == init + [last];
      var before := PushAll(names, init);
      if Listed(init, name) { ListedGrows(init, [last], name); }
      if Listed(before, name) { ListedGrows(before, [last], name); }
      if SameName(last, name) {
        assert more[|more| - 1] == last;
        assert (before + [last])[|before|] == last;
        if Listed(before, last) {
          var i :| 0 <= i < |before| && SameName(before[i], last);
          assert SameName(before[i], name);
        }
      }
      if Listed(more, name) && !SameName(last, name) {
        var i :| 0 <= i < |more| && SameName(more[i], name);
        assert init[i] == more[i];
      }
      if Listed(PushUnique(before, last), name) && !SameName(last, name) {
        var i :| 0 <= i < |PushUnique(before, last)| && SameName(PushUnique(before, last)[i], name);
        assert before[i] == PushUnique(before, last)[i];
      }
    }
  }

  /** Redacting a body adds each listed key it holds to the banner once, up to case, and nothing else. */
  lemma BannerExact(v: Json, fields: seq<string>, names: seq<string>, name: string)
    requires DistinctNames(names)
    ensures var banner := PushAll(names, Hits(v, fields));
            && DistinctNames(banner)
            && (Listed(banner, name) <==> Listed(names, name) || exists k :: k in Hits(v, fields) && SameName(k, name))
            && (forall k :: k in Hits(v, fields) <==> Holds(v, k, fields))
  {
    var hits := Hits(v, fields);
    PushAllExact(names, hits, name);
    forall k ensures k in hits <==> Holds(v, k, fields) {
      HitsExact(v, k, fields);
    }
    if k :| k in hits && SameName(k, name) {
      var i :| 0 <= i < |hits| && hits[i] == k;
      assert Listed(hits, name);
    }
  }
}
