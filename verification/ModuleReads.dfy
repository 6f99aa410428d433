/**
  What the content modules and the prefilter read, said of the request's own fields. Each module
  reports exactly the rules that match somewhere in what it has to read.
*/
module ModuleReads {
  import opened Prelude
  import opened SqlComments
  import opened Prefilter

  // ── the fields ────────────────────────────────────────────────────────────────────────────────

  ghost predicate HasValue(ps: Pairs, v: string) { exists i :: 0 <= i < |ps| && ps[i].1 == v }
  ghost predicate HasName(ps: Pairs, k: string) { exists i :: 0 <= i < |ps| && ps[i].0 == k }

  /** The text a multipart part shows: name, filename and data, the data only if it is text. */
  predicate PartShows(env: Env, f: MultipartField, v: string) {
    || v == env.canonicalize(f.name)
    || (f.filename.Some? && v == env.canonicalize(f.filename.value))
    || (env.fromUtf8(f.data).Some? && v == env.canonicalize(env.fromUtf8(f.data).value))
  }

  ghost predicate BodyShows(env: Env, body: ParsedBody, v: string) {
    match body
    case NoBody => false
    case FormUrlEncoded(params) => HasValue(params, v)
    case JsonFlattened(pairs) => HasValue(pairs, v)
    case Multipart(fields) => exists i :: 0 <= i < |fields| && PartShows(env, fields[i], v)
    case Raw(bytes) => env.fromUtf8(bytes) == Some(v) && 0 !in bytes
  }

  ghost predicate BodyHasKey(body: ParsedBody, k: string) {
    match body
    case FormUrlEncoded(params) => HasName(params, k)
    case JsonFlattened(pairs) => HasName(pairs, k)
    case Multipart(fields) => exists i :: 0 <= i < |fields| && fields[i].name == k
    case _ => false
  }

  ghost predicate HasKey(req: Request, k: string) { HasName(req.queryParams, k) || BodyHasKey(req.body, k) }

  ghost predicate UserAgentIs(req: Request, v: string) {
    exists i :: 0 <= i < |req.headers| && req.headers[i].0 == "user-agent" && req.headers[i].1 == v
  }

  ghost predicate HostIs(req: Request, v: string) {
    exists i :: 0 <= i < |req.headers| && req.headers[i].0 in ["host", "x-forwarded-host"] && req.headers[i].1 == v
  }

  ghost predicate InspectableHeaderIs(env: Env, req: Request, v: string) {
    exists i :: 0 <= i < |req.headers| && env.headerInspectable(req.headers[i].0) && req.headers[i].1 == v
  }

  ghost predicate ParamIs(env: Env, req: Request, v: string) {
    HasValue(req.queryParams, v) || HasValue(req.cookies, v) || BodyShows(env, req.body, v) || v in req.derivedDecoded
  }

  ghost predicate PlainIs(env: Env, req: Request, v: string) {
    v == req.path || ParamIs(env, req, v) || InspectableHeaderIs(env, req, v)
  }

  /** The values a module of this kind has to read. */
  ghost predicate Reads(env: Env, kind: Kind, req: Request, v: string) {
    match kind
    case WithoutPath => ParamIs(env, req, v)
    case Scanner => UserAgentIs(req, v)
    case Sqli => PlainIs(env, req, v) || exists w :: PlainIs(env, req, w) && Collapsed(w) == Some(v)
    case _ => PlainIs(env, req, v)
  }

  /** The values a header-injection rule of this scope has to read. */
  ghost predicate ScopeReads(env: Env, scope: Scope, req: Request, v: string) {
    var outside :=
      v == req.path || HasValue(req.queryParams, v) || HasValue(req.cookies, v) || HasValue(req.headers, v);
    match scope
    case AllFields => outside || BodyShows(env, req.body, v)
    case NonBody => outside
    case HostHeaders => HostIs(req, v)
    case BodyOnly => BodyShows(env, req.body, v)
  }

  // ── the surfaces hold exactly these values ────────────────────────────────────────────────────

  lemma ValuesExact(ps: Pairs, v: string)
    ensures v in Values(ps) <==> HasValue(ps, v)
  {
    forall i | 0 <= i < |ps| ensures Values(ps)[i] == ps[i].1 {}
  }

  lemma NamesExact(ps: Pairs, k: string)
    ensures k in Names(ps) <==> HasName(ps, k)
  {
    forall i | 0 <= i < |ps| ensures Names(ps)[i] == ps[i].0 {}
  }

  ghost predicate HasValueOf(ps: Pairs, keep: string -> bool, v: string) {
    exists i :: 0 <= i < |ps| && keep(ps[i].0) && ps[i].1 == v
  }

  lemma {:induction false} ValuesOfExact(ps: Pairs, keep: string -> bool, v: string)
    ensures v in ValuesOf(ps, keep) <==> HasValueOf(ps, keep, v)
    decreases |ps|
  {
    if ps != [] {
      ValuesOfExact(ps[1..], keep, v);
      if HasValueOf(ps[1..], keep, v) {
        var i :| 0 <= i < |ps[1..]| && keep(ps[1..][i].0) && ps[1..][i].1 == v;
        assert ps[i + 1] == ps[1..][i];
      }
      if HasValueOf(ps, keep, v) {
        var i :| 0 <= i < |ps| && keep(ps[i].0) && ps[i].1 == v;
        assert i > 0 ==> ps[1..][i - 1] == ps[i];
      }
    }
  }

  lemma {:induction false} MultipartExact(env: Env, fields: seq<MultipartField>, v: string)
    ensures v in MultipartStrings(env, fields) <==> BodyShows(env, Multipart(fields), v)
    decreases |fields|
  {
    if fields != [] {
      MultipartExact(env, fields[1..], v);
      MultipartSplit(env, fields, v);
    }
  }

  lemma MultipartSplit(env: Env, fields: seq<MultipartField>, v: string)
    requires fields != []
    ensures BodyShows(env, Multipart(fields), v)
            <==> PartShows(env, fields[0], v) || BodyShows(env, Multipart(fields[1..]), v)
  {
    forall i | 0 <= i < |fields[1..]| ensures fields[1..][i] == fields[i + 1] {}
    if i :| 0 <= i < |fields| && PartShows(env, fields[i], v) {
      assert i > 0 ==> PartShows(env, fields[1..][i - 1], v);
    }
  }

  lemma BodyExact(env: Env, body: ParsedBody, v: string)
    ensures v in BodyStrValues(env, body) <==> BodyShows(env, body, v)
  {
    match body {
      case FormUrlEncoded(params) => ValuesExact(params, v);
      case JsonFlattened(pairs) => ValuesExact(pairs, v);
      case Multipart(fields) => MultipartExact(env, fields, v);
      case _ =>
    }
  }

  lemma BodyKeysExact(body: ParsedBody, k: string)
    ensures k in BodyKeyStrings(body) <==> BodyHasKey(body, k)
  {
    match body {
      case FormUrlEncoded(params) => NamesExact(params, k);
      case JsonFlattened(pairs) => NamesExact(pairs, k);
      case Multipart(fields) =>
        forall i | 0 <= i < |fields| ensures BodyKeyStrings(body)[i] == fields[i].name {}
      case _ =>
    }
  }

  lemma KeysExact(req: Request, k: string)
    ensures k in KeyStrings(req) <==> HasKey(req, k)
  {
    NamesExact(req.queryParams, k);
    BodyKeysExact(req.body, k);
  }

  lemma ParamExact(env: Env, req: Request, v: string)
    ensures v in ParamSurface(env, req) <==> ParamIs(env, req, v)
  {
    ValuesExact(req.queryParams, v);
    ValuesExact(req.cookies, v);
    BodyExact(env, req.body, v);
  }

  lemma PlainExact(env: Env, req: Request, v: string)
    ensures v in PlainSurface(env, req) <==> PlainIs(env, req, v)
  {
    ParamExact(env, req, v);
    ValuesOfExact(req.headers, env.headerInspectable, v);
    assert HasValueOf(req.headers, env.headerInspectable, v) <==> InspectableHeaderIs(env, req, v);
  }

  lemma {:induction false} CollapsedCopiesExact(values: seq<string>, c: string)
    ensures c in CollapsedCopies(values) <==> exists w :: w in values && Collapsed(w) == Some(c)
    decreases |values|
  {
    if values != [] {
      CollapsedCopiesExact(values[1..], c);
      assert values == [values[0]] + values[1..];
    }
  }

  lemma UserAgentExact(req: Request, v: string)
    ensures v in ValuesOf(req.headers, IsUserAgent) <==> UserAgentIs(req, v)
  {
    ValuesOfExact(req.headers, IsUserAgent, v);
    assert HasValueOf(req.headers, IsUserAgent, v) <==> UserAgentIs(req, v);
  }

  lemma HostExact(req: Request, v: string)
    ensures v in ValuesOf(req.headers, IsHostHeader) <==> HostIs(req, v)
  {
    ValuesOfExact(req.headers, IsHostHeader, v);
    assert HasValueOf(req.headers, IsHostHeader, v) <==> HostIs(req, v);
  }

  /** A module's surface is exactly what its kind has to read. */
  lemma SurfaceExact(env: Env, kind: Kind, req: Request, v: string)
    ensures v in Surface(env, kind, req) <==> Reads(env, kind, req, v)
  {
    PlainExact(env, req, v);
    match kind {
      case WithoutPath => ParamExact(env, req, v);
      case Scanner => UserAgentExact(req, v);
      case Sqli =>
        CollapsedCopiesExact(PlainSurface(env, req), v);
        forall w ensures w in PlainSurface(env, req) <==> PlainIs(env, req, w) {
          PlainExact(env, req, w);
        }
      case _ =>
    }
  }

  lemma ScopeExact(env: Env, scope: Scope, req: Request, v: string)
    ensures v in ScopeSurface(env, scope, req) <==> ScopeReads(env, scope, req, v)
  {
    ValuesExact(req.queryParams, v);
    ValuesExact(req.cookies, v);
    ValuesExact(req.headers, v);
    BodyExact(env, req.body, v);
    HostExact(req, v);
  }

  // ── a module reports exactly the rules that match there ───────────────────────────────────────

  ghost predicate Matches(env: Env, kind: Kind, req: Request, pattern: string) {
    exists v :: Reads(env, kind, req, v) && env.isMatch(pattern, v)
  }

  ghost predicate ScopeMatches(env: Env, scope: Scope, req: Request, pattern: string) {
    exists v :: ScopeReads(env, scope, req, v) && env.isMatch(pattern, v)
  }

  ghost predicate KeyMatches(env: Env, req: Request, pattern: string) {
    exists k :: HasKey(req, k) && env.isMatch(pattern, k)
  }

  /** The first User-Agent header matches. */
  ghost predicate FirstUserAgentMatches(env: Env, req: Request, pattern: string) {
    exists i :: 0 <= i < |req.headers| && req.headers[i].0 == "user-agent" && env.isMatch(pattern, req.headers[i].1)
                && forall j :: 0 <= j < i ==> req.headers[j].0 != "user-agent"
  }

  lemma FiresIff(env: Env, kind: Kind, req: Request, pattern: string)
    ensures Fires(env, pattern, Surface(env, kind, req)) <==> Matches(env, kind, req, pattern)
  {
    forall v ensures v in Surface(env, kind, req) <==> Reads(env, kind, req, v) {
      SurfaceExact(env, kind, req, v);
    }
  }

  lemma ScopeFiresIff(env: Env, scope: Scope, req: Request, pattern: string)
    ensures Fires(env, pattern, ScopeSurface(env, scope, req)) <==> ScopeMatches(env, scope, req, pattern)
  {
    forall v ensures v in ScopeSurface(env, scope, req) <==> ScopeReads(env, scope, req, v) {
      ScopeExact(env, scope, req, v);
    }
  }

  lemma KeyFiresIff(env: Env, req: Request, pattern: string)
    ensures Fires(env, pattern, KeyStrings(req)) <==> KeyMatches(env, req, pattern)
  {
    forall k ensures k in KeyStrings(req) <==> HasKey(req, k) {
      KeysExact(req, k);
    }
  }

  ghost predicate FirstIs(ps: Pairs, keep: string -> bool, i: nat) {
    i < |ps| && keep(ps[i].0) && forall j :: 0 <= j < i ==> !keep(ps[j].0)
  }

  lemma {:induction false} FirstValueOf(ps: Pairs, keep: string -> bool)
    ensures ValuesOf(ps, keep) == [] ==> forall i: nat :: !FirstIs(ps, keep, i)
    ensures ValuesOf(ps, keep) != [] ==>
              exists i: nat :: FirstIs(ps, keep, i) && ps[i].1 == ValuesOf(ps, keep)[0]
    decreases |ps|
  {
    if ps != [] {
      FirstValueOf(ps[1..], keep);
      if keep(ps[0].0) {
        assert FirstIs(ps, keep, 0);
      } else {
        forall i: nat | i < |ps| - 1 ensures FirstIs(ps, keep, i + 1) <==> FirstIs(ps[1..], keep, i) {
          FirstShifts(ps, keep, i);
        }
        if ValuesOf(ps, keep) != [] {
          var i: nat :| FirstIs(ps[1..], keep, i) && ps[1..][i].1 == ValuesOf(ps[1..], keep)[0];
          assert FirstIs(ps, keep, i + 1) && ps[i + 1].1 == ValuesOf(ps, keep)[0];
        } else {
          forall i: nat ensures !FirstIs(ps, keep, i) {
            assert i > 0 && i < |ps| ==> (FirstIs(ps, keep, i - 1 + 1) <==> FirstIs(ps[1..], keep, i - 1));
          }
        }
      }
    }
  }

  lemma FirstShifts(ps: Pairs, keep: string -> bool, i: nat)
    requires ps != [] && !keep(ps[0].0) && i < |ps| - 1
    ensures FirstIs(ps, keep, i + 1) <==> FirstIs(ps[1..], keep, i)
  {
    if FirstIs(ps[1..], keep, i) {
      forall j | 0 <= j < i + 1 ensures !keep(ps[j].0) {
        assert j > 0 ==> ps[1..][j - 1] == ps[j];
      }
    } else if FirstIs(ps, keep, i + 1) {
      forall j | 0 <= j < i ensures !keep(ps[1..][j].0) {
        assert ps[1..][j] == ps[j + 1];
      }
    }
  }

  lemma OneFirst(ps: Pairs, keep: string -> bool, i: nat, j: nat)
    requires FirstIs(ps, keep, i) && FirstIs(ps, keep, j)
    ensures i == j
  {}

  lemma FirstUserAgentIff(env: Env, req: Request, pattern: string)
    ensures var ua := ValuesOf(req.headers, IsUserAgent);
            ua != [] && env.isMatch(pattern, ua[0]) <==> FirstUserAgentMatches(env, req, pattern)
  {
    var ua := ValuesOf(req.headers, IsUserAgent);
    FirstValueOf(req.headers, IsUserAgent);
    if FirstUserAgentMatches(env, req, pattern) {
      var i: nat :| i < |req.headers| && req.headers[i].0 == "user-agent" && env.isMatch(pattern, req.headers[i].1)
                    && forall j :: 0 <= j < i ==> req.headers[j].0 != "user-agent";
      assert FirstIs(req.headers, IsUserAgent, i);
      var k: nat :| FirstIs(req.headers, IsUserAgent, k) && req.headers[k].1 == ua[0];
      OneFirst(req.headers, IsUserAgent, i, k);
    }
    if ua != [] && env.isMatch(pattern, ua[0]) {
      var k: nat :| FirstIs(req.headers, IsUserAgent, k) && req.headers[k].1 == ua[0];
      assert forall j :: 0 <= j < k ==> !IsUserAgent(req.headers[j].0);
    }
  }

  /** The items of the active rules that match, in table order. */
  ghost function Matching(env: Env, kind: Kind, table: seq<Rule>, paranoia: nat, req: Request): seq<ScoreItem> {
    if table == [] then []
    else
      var r := table[|table| - 1];
      Matching(env, kind, table[..|table| - 1], paranoia, req)
      + (if r.paranoia <= paranoia && Matches(env, kind, req, r.pattern) then [ScoreItem(r.id, r.severity)] else [])
  }

  /** The hits of a longer table, as items: those of the shorter one, then the last rule's. */
  lemma {:induction false} HitsOfPrefix(env: Env, rules: seq<Rule>, values: seq<string>, n: nat)
    requires n < |rules|
    ensures HitIndices(env, rules, values, n) == HitIndices(env, rules[..|rules| - 1], values, n)
    decreases n
  {
    if n > 0 {
      HitsOfPrefix(env, rules, values, n - 1);
    }
  }

  lemma ItemsOfOneMore(env: Env, rules: seq<Rule>, r: Rule, more: seq<Rule>, values: seq<string>)
    requires more == rules + [r]
    ensures ItemsAt(more, HitIndices(env, more, values, |more|))
            == ItemsAt(rules, HitIndices(env, rules, values, |rules|))
                + if Fires(env, r.pattern, values) then [ScoreItem(r.id, r.severity)] else []
  {
    HitsOfPrefix(env, more, values, |rules|);
    assert more[..|more| - 1] == rules;
  }

  /** The items of the active rules that fire on `values`, in table order. */
  function Firing(env: Env, table: seq<Rule>, paranoia: nat, values: seq<string>): seq<ScoreItem> {
    if table == [] then []
    else
      var r := table[|table| - 1];
      Firing(env, table[..|table| - 1], paranoia, values)
      + (if r.paranoia <= paranoia && Fires(env, r.pattern, values) then [ScoreItem(r.id, r.severity)] else [])
  }

  lemma {:induction false} FiringIsReported(env: Env, table: seq<Rule>, paranoia: nat, values: seq<string>)
    ensures var active := Active(table, paranoia);
            ItemsAt(active, HitIndices(env, active, values, |active|)) == Firing(env, table, paranoia, values)
    decreases |table|
  {
    if table != [] {
      var r, before := table[|table| - 1], table[..|table| - 1];
      FiringIsReported(env, before, paranoia, values);
      if r.paranoia <= paranoia {
        ItemsOfOneMore(env, Active(before, paranoia), r, Active(table, paranoia), values);
      } else {
        assert Active(table, paranoia) == Active(before, paranoia);
      }
    }
  }

  lemma {:induction false} FiringMatches(
    env: Env, kind: Kind, table: seq<Rule>, paranoia: nat, req: Request, values: seq<string>)
    requires values == Surface(env, kind, req)
    ensures Firing(env, table, paranoia, values) == Matching(env, kind, table, paranoia, req)
    decreases |table|
  {
    if table != [] {
      FiringMatches(env, kind, table[..|table| - 1], paranoia, req, values);
      FiresIff(env, kind, req, table[|table| - 1].pattern);
    }
  }

  lemma MatchingIsReported(env: Env, kind: Kind, table: seq<Rule>, paranoia: nat, req: Request)
    ensures var active := Active(table, paranoia);
            ItemsAt(active, HitIndices(env, active, Surface(env, kind, req), |active|))
            == Matching(env, kind, table, paranoia, req)
  {
    FiringIsReported(env, table, paranoia, Surface(env, kind, req));
    FiringMatches(env, kind, table, paranoia, req, Surface(env, kind, req));
  }

  /** Which rule's match puts `item` on the list. */
  ghost predicate RuleGives(env: Env, kind: Kind, table: seq<Rule>, paranoia: nat, req: Request, item: ScoreItem) {
    exists r :: r in table && r.paranoia <= paranoia && item == ScoreItem(r.id, r.severity)
                && Matches(env, kind, req, r.pattern)
  }

  lemma {:induction false} MatchingExact(
    env: Env, kind: Kind, table: seq<Rule>, paranoia: nat, req: Request, item: ScoreItem)
    ensures item in Matching(env, kind, table, paranoia, req) <==> RuleGives(env, kind, table, paranoia, req, item)
    decreases |table|
  {
    if table != [] {
      var r, before := table[|table| - 1], table[..|table| - 1];
      MatchingExact(env, kind, before, paranoia, req, item);
      assert table == before + [r];
    }
  }

  /** No matching rule already carries the id. */
  ghost predicate Unreported(env: Env, kind: Kind, table: seq<Rule>, paranoia: nat, req: Request, id: string) {
    forall r :: r in table && r.paranoia <= paranoia && r.id == id ==> !Matches(env, kind, req, r.pattern)
  }

  lemma UnreportedIff(env: Env, kind: Kind, table: seq<Rule>, paranoia: nat, req: Request, id: string)
    ensures Unreported(env, kind, table, paranoia, req, id)
            <==> !Reported(Matching(env, kind, table, paranoia, req), id)
  {
    var items := Matching(env, kind, table, paranoia, req);
    if i :| 0 <= i < |items| && items[i].ruleId == id {
      MatchingExact(env, kind, table, paranoia, req, items[i]);
    }
    if !Unreported(env, kind, table, paranoia, req, id) {
      var r :| r in table && r.paranoia <= paranoia && r.id == id && Matches(env, kind, req, r.pattern);
      var item := ScoreItem(r.id, r.severity);
      MatchingExact(env, kind, table, paranoia, req, item);
      var i :| 0 <= i < |items| && items[i] == item;
      assert items[i].ruleId == id;
    }
  }

  /** The findings of the dedicated scans: shellshock in the User-Agent, and operators in key position. */
  ghost predicate ScanGives(env: Env, kind: Kind, table: seq<Rule>, paranoia: nat, req: Request, item: ScoreItem) {
    && item.severity == Critical
    && Unreported(env, kind, table, paranoia, req, item.ruleId)
    && match kind
       case Rce =>
         && item.ruleId == "rce-shellshock"
         && (exists r :: r in table && r.paranoia <= paranoia && r.id == "rce-shellshock")
         && FirstUserAgentMatches(env, req, SHELLSHOCK_PATTERN)
       case Nosql =>
         || (item.ruleId == "nosql-operator-key" && KeyMatches(env, req, OPERATOR_KEY_PATTERN))
         || (item.ruleId == "proto-pollution-key" && KeyMatches(env, req, PROTO_POLLUTION_PATTERN))
       case _ => false
  }

  function ItemsOf(d: Decision): seq<ScoreItem> { if d.Allow? then [] else d.items }

  lemma AddOnceMembers(items: seq<ScoreItem>, fire: bool, id: string, item: ScoreItem)
    ensures item in AddOnce(items, fire, id)
            <==> item in items || (fire && !Reported(items, id) && item == ScoreItem(id, Critical))
    ensures items <= AddOnce(items, fire, id)
  {}

  lemma OtherIdStaysUnreported(items: seq<ScoreItem>, fire: bool, id: string, other: string)
    requires id != other
    ensures Reported(AddOnce(items, fire, id), other) <==> Reported(items, other)
  {
    var after := AddOnce(items, fire, id);
    forall i | 0 <= i < |items| ensures after[i] == items[i] {}
  }

  lemma AddTwoMembers(
    items: seq<ScoreItem>, once: seq<ScoreItem>, fire: bool, id: string, fire': bool, id': string, item: ScoreItem)
    requires id != id' && once == AddOnce(items, fire, id)
    ensures item in AddOnce(once, fire', id')
            <==> || item in items
                 || (fire && !Reported(items, id) && item == ScoreItem(id, Critical))
                 || (fire' && !Reported(items, id') && item == ScoreItem(id', Critical))
    ensures items <= AddOnce(once, fire', id')
  {
    AddOnceMembers(items, fire, id, item);
    AddOnceMembers(once, fire', id', item);
    OtherIdStaysUnreported(items, fire, id, id');
  }

  lemma VerdictItems(items: seq<ScoreItem>)
    ensures ItemsOf(Verdict(items)) == items
  {}

  lemma RceScanExact(env: Env, table: seq<Rule>, paranoia: nat, req: Request, item: ScoreItem)
    ensures var items := ItemsOf(Inspected(env, Rce, Active(table, paranoia), req));
            && (item in items
                <==> || item in Matching(env, Rce, table, paranoia, req)
                     || ScanGives(env, Rce, table, paranoia, req, item))
            && Matching(env, Rce, table, paranoia, req) <= items
  {
    var active, items := Active(table, paranoia), Matching(env, Rce, table, paranoia, req);
    var fire := ShellshockInUserAgent(env, active, req);
    MatchingIsReported(env, Rce, table, paranoia, req);
    UnreportedIff(env, Rce, table, paranoia, req, SHELLSHOCK_ID);
    FirstUserAgentIff(env, req, SHELLSHOCK_PATTERN);
    VerdictItems(AddOnce(items, fire, SHELLSHOCK_ID));
    AddOnceMembers(items, fire, SHELLSHOCK_ID, item);
  }

  lemma NosqlItems(env: Env, table: seq<Rule>, paranoia: nat, req: Request, items: seq<ScoreItem>)
    requires items == Matching(env, Nosql, table, paranoia, req)
    ensures ItemsOf(Inspected(env, Nosql, Active(table, paranoia), req))
            == AddOnce(AddOnce(items, KeyMatches(env, req, OPERATOR_KEY_PATTERN), "nosql-operator-key"),
                       KeyMatches(env, req, PROTO_POLLUTION_PATTERN), "proto-pollution-key")
  {
    MatchingIsReported(env, Nosql, table, paranoia, req);
    KeyFiresIff(env, req, OPERATOR_KEY_PATTERN);
    KeyFiresIff(env, req, PROTO_POLLUTION_PATTERN);
  }

  lemma NosqlScanExact(env: Env, table: seq<Rule>, paranoia: nat, req: Request, item: ScoreItem)
    ensures var items := ItemsOf(Inspected(env, Nosql, Active(table, paranoia), req));
            && (item in items
                <==> || item in Matching(env, Nosql, table, paranoia, req)
                     || ScanGives(env, Nosql, table, paranoia, req, item))
            && Matching(env, Nosql, table, paranoia, req) <= items
  {
    var items := Matching(env, Nosql, table, paranoia, req);
    var operator, proto := KeyMatches(env, req, OPERATOR_KEY_PATTERN), KeyMatches(env, req, PROTO_POLLUTION_PATTERN);
    NosqlItems(env, table, paranoia, req, items);
    UnreportedIff(env, Nosql, table, paranoia, req, "nosql-operator-key");
    UnreportedIff(env, Nosql, table, paranoia, req, "proto-pollution-key");
    var once := AddOnce(items, operator, "nosql-operator-key");
    AddTwoMembers(items, once, operator, "nosql-operator-key", proto, "proto-pollution-key", item);
  }

  /**
    An initialised module reports an item if and only if an active rule of its table gives it by matching a
    value the module has to read, or one of its dedicated scans does.
  */
  lemma ReportsExactly(env: Env, kind: Kind, table: seq<Rule>, paranoia: nat, req: Request, item: ScoreItem)
    ensures item in ItemsOf(Inspected(env, kind, Active(table, paranoia), req))
            <==> RuleGives(env, kind, table, paranoia, req, item) || ScanGives(env, kind, table, paranoia, req, item)
  {
    MatchingExact(env, kind, table, paranoia, req, item);
    match kind {
      case Rce => RceScanExact(env, table, paranoia, req, item);
      case Nosql => NosqlScanExact(env, table, paranoia, req, item);
      case _ => MatchingIsReported(env, kind, table, paranoia, req);
    }
  }

  /** Each matching rule is reported once, in table order, before anything the scans add. */
  lemma ReportsInOrder(env: Env, kind: Kind, table: seq<Rule>, paranoia: nat, req: Request)
    ensures var items := ItemsOf(Inspected(env, kind, Active(table, paranoia), req));
            && Matching(env, kind, table, paranoia, req) <= items
            && (!kind.Rce? && !kind.Nosql? ==> items == Matching(env, kind, table, paranoia, req))
            && (Inspected(env, kind, Active(table, paranoia), req).Scores? ==> items != [])
  {
    match kind {
      case Rce => RceScanExact(env, table, paranoia, req, ScoreItem("", Critical));
      case Nosql => NosqlScanExact(env, table, paranoia, req, ScoreItem("", Critical));
      case _ => MatchingIsReported(env, kind, table, paranoia, req);
    }
  }

  /** The header-injection module reports an item exactly when an active rule matches in its own scope. */
  lemma {:induction false} HeaderReportsExactly(
    env: Env, rules: seq<HdrRule>, paranoia: nat, req: Request, item: ScoreItem)
    ensures item in HeaderItems(env, rules, paranoia, req)
            <==> exists h :: h in rules && h.rule.paranoia <= paranoia && item == ScoreItem(h.rule.id, h.rule.severity)
                             && ScopeMatches(env, h.scope, req, h.rule.pattern)
    decreases |rules|
  {
    if rules != [] {
      var h, before := rules[|rules| - 1], rules[..|rules| - 1];
      HeaderReportsExactly(env, before, paranoia, req, item);
      ScopeFiresIff(env, h.scope, req, h.rule.pattern);
      assert rules == before + [h];
    }
  }

  // ── the fourteen shipped modules ──────────────────────────────────────────────────────────────

  ghost predicate ReportsFor(env: Env, kind: Kind, table: seq<Rule>, paranoia: nat, req: Request, d: Decision) {
    forall item :: item in ItemsOf(d)
                   <==> || RuleGives(env, kind, table, paranoia, req, item)
                        || ScanGives(env, kind, table, paranoia, req, item)
  }

  lemma ShippedAt(
    env: Env, t: Tables, paranoia: nat, req: Request, i: nat, kind: Kind, table: seq<Rule>, all: seq<Decision>)
    requires i < 13 && KINDS[i] == kind && TableList(t)[i] == table && all == FullInspection(env, t, paranoia, req)
    ensures ReportsFor(env, kind, table, paranoia, req, all[i])
  {
    forall item
      ensures item in ItemsOf(all[i])
              <==> RuleGives(env, kind, table, paranoia, req, item) || ScanGives(env, kind, table, paranoia, req, item)
    {
      ReportsExactly(env, kind, table, paranoia, req, item);
    }
  }

  datatype Shipped =
    | SqlInjection | CrossSiteScripting | PathTraversal | CommandInjection | FileInclusion | RequestForgery
    | LdapInjection | NosqlInjection | MailInjection | TemplateInjection | ScannerDetection | ServerSideIncludes
    | XmlEntities

  function Place(m: Shipped): nat {
    match m
    case SqlInjection => 0
    case CrossSiteScripting => 1
    case PathTraversal => 2
    case CommandInjection => 3
    case FileInclusion => 4
    case RequestForgery => 5
    case LdapInjection => 6
    case NosqlInjection => 7
    case MailInjection => 8
    case TemplateInjection => 9
    case ScannerDetection => 10
    case ServerSideIncludes => 11
    case XmlEntities => 12
  }

  function KindOf(m: Shipped): Kind {
    match m
    case SqlInjection => Sqli
    case CommandInjection => Rce
    case NosqlInjection => Nosql
    case ScannerDetection => Scanner
    case FileInclusion => WithoutPath
    case RequestForgery => WithoutPath
    case _ => Plain
  }

  function TableOf(t: Tables, m: Shipped): seq<Rule> {
    match m
    case SqlInjection => t.sqli
    case CrossSiteScripting => t.xss
    case PathTraversal => t.pathTraversal
    case CommandInjection => t.rce
    case FileInclusion => t.lfiRfi
    case RequestForgery => t.ssrf
    case LdapInjection => t.ldap
    case NosqlInjection => t.nosql
    case MailInjection => t.mail
    case TemplateInjection => t.ssti
    case ScannerDetection => t.scanner
    case ServerSideIncludes => t.ssi
    case XmlEntities => t.xxe
  }

  lemma ShippedInPlace(t: Tables, m: Shipped)
    ensures Place(m) < 13 && KINDS[Place(m)] == KindOf(m) && TableList(t)[Place(m)] == TableOf(t, m)
  {}

  /** Full inspection is each shipped module on its own table, with what that module has to read. */
  lemma ShippedModulesReport(env: Env, t: Tables, paranoia: nat, req: Request, m: Shipped)
    ensures Place(m) < |FullInspection(env, t, paranoia, req)|
    ensures ReportsFor(env, KindOf(m), TableOf(t, m), paranoia, req, FullInspection(env, t, paranoia, req)[Place(m)])
  {
    ShippedInPlace(t, m);
    ShippedAt(env, t, paranoia, req, Place(m), KindOf(m), TableOf(t, m), FullInspection(env, t, paranoia, req));
  }

  lemma FourteenDecisions(env: Env, t: Tables, paranoia: nat, req: Request)
    ensures var all := FullInspection(env, t, paranoia, req);
            |all| == 14 && ItemsOf(all[13]) == HeaderItems(env, t.headerInjection, paranoia, req)
  {}

  // ── the prefilter objects exactly to these requests ───────────────────────────────────────────

  /** The pattern of an active rule that is scanned everywhere. */
  ghost predicate MainPattern(t: Tables, paranoia: nat, p: string) {
    || (exists i, r :: 0 <= i < 13 && r in TableList(t)[i] && r.paranoia <= paranoia && r.pattern == p)
    || (exists h :: h in t.headerInjection && h.scope != HostHeaders && h.rule.paranoia <= paranoia
                    && h.rule.pattern == p)
  }

  ghost predicate HostPattern(t: Tables, paranoia: nat, p: string) {
    exists h :: h in t.headerInjection && h.scope == HostHeaders && h.rule.paranoia <= paranoia && h.rule.pattern == p
  }

  ghost predicate GateReads(env: Env, req: Request, v: string) {
    v == req.path || ParamIs(env, req, v) || HasValue(req.headers, v)
  }

  lemma GateExact(env: Env, req: Request, v: string)
    ensures v in MainSurface(env, req) <==> GateReads(env, req, v)
  {
    ValuesExact(req.queryParams, v);
    ValuesExact(req.cookies, v);
    ValuesExact(req.headers, v);
    BodyExact(env, req.body, v);
  }

  lemma {:induction false} TableTagsExact(tables: seq<seq<Rule>>, paranoia: nat, p: string)
    ensures HasValue(TableTags(tables, paranoia), p)
            <==> exists i, r :: 0 <= i < |tables| && r in tables[i] && r.paranoia <= paranoia && r.pattern == p
    decreases |tables|
  {
    if tables != [] {
      var n := |tables| - 1;
      TableTagsExact(tables[..n], paranoia, p);
      TagsExact(tables[n], paranoia, p);
      HasValueConcat(TableTags(tables[..n], paranoia), Tags(tables[n], paranoia), p);
      if i, r :| 0 <= i < |tables| && r in tables[i] && r.paranoia <= paranoia && r.pattern == p {
        assert i < n ==> r in tables[..n][i];
      }
      if i, r :| 0 <= i < n && r in tables[..n][i] && r.paranoia <= paranoia && r.pattern == p {
        assert r in tables[i];
      }
    }
  }

  lemma HasValueConcat(a: Pairs, b: Pairs, p: string)
    ensures HasValue(a + b, p) <==> HasValue(a, p) || HasValue(b, p)
  {
    if i :| 0 <= i < |a| && a[i].1 == p {
      assert (a + b)[i].1 == p;
    }
    if i :| 0 <= i < |b| && b[i].1 == p {
      assert (a + b)[|a| + i].1 == p;
    }
  }

  lemma TagsExact(table: seq<Rule>, paranoia: nat, p: string)
    ensures HasValue(Tags(table, paranoia), p) <==> exists r :: r in table && r.paranoia <= paranoia && r.pattern == p
  {
    var active := Active(table, paranoia);
    if r :| r in table && r.paranoia <= paranoia && r.pattern == p {
      var k :| 0 <= k < |active| && active[k] == r;
      assert Tags(table, paranoia)[k].1 == p;
    }
    if k :| 0 <= k < |active| && Tags(table, paranoia)[k].1 == p {
      assert active[k] in active;
    }
  }

  lemma {:induction false} HeaderTagsExact(rules: seq<HdrRule>, paranoia: nat, hostOnly: bool, p: string)
    ensures HasValue(HeaderTags(rules, paranoia, hostOnly), p)
            <==> exists h :: h in rules && h.scope.HostHeaders? == hostOnly && h.rule.paranoia <= paranoia
                             && h.rule.pattern == p
    decreases |rules|
  {
    if rules != [] {
      var h, before := rules[|rules| - 1], rules[..|rules| - 1];
      HeaderTagsExact(before, paranoia, hostOnly, p);
      var last := if h.rule.paranoia <= paranoia && h.scope.HostHeaders? == hostOnly
        then [(h.rule.id, h.rule.pattern)] else [];
      HasValueConcat(HeaderTags(before, paranoia, hostOnly), last, p);
      assert rules == before + [h];
      assert last != [] ==> last[0].1 == h.rule.pattern;
    }
  }

  lemma MainBucketExact(t: Tables, paranoia: nat, p: string)
    ensures p in Values(MainBucket(t, paranoia)) <==> MainPattern(t, paranoia, p)
  {
    ValuesExact(MainBucket(t, paranoia), p);
    HasValueConcat(TableTags(TableList(t), paranoia), HeaderTags(t.headerInjection, paranoia, false), p);
    TableTagsExact(TableList(t), paranoia, p);
    HeaderTagsExact(t.headerInjection, paranoia, false, p);
  }

  lemma HostBucketExact(t: Tables, paranoia: nat, p: string)
    ensures p in Values(HostBucket(t, paranoia)) <==> HostPattern(t, paranoia, p)
  {
    ValuesExact(HostBucket(t, paranoia), p);
    HeaderTagsExact(t.headerInjection, paranoia, true, p);
  }

  ghost predicate MainPatternMatches(env: Env, t: Tables, paranoia: nat, v: string) {
    exists p :: MainPattern(t, paranoia, p) && env.isMatch(p, v)
  }

  ghost predicate HostPatternMatches(env: Env, t: Tables, paranoia: nat, v: string) {
    exists p :: HostPattern(t, paranoia, p) && env.isMatch(p, v)
  }

  lemma MainMatchIff(env: Env, t: Tables, paranoia: nat, v: string)
    ensures AnyMatch(env, Values(MainBucket(t, paranoia)), v) <==> MainPatternMatches(env, t, paranoia, v)
  {
    forall p ensures p in Values(MainBucket(t, paranoia)) <==> MainPattern(t, paranoia, p) {
      MainBucketExact(t, paranoia, p);
    }
  }

  lemma HostMatchIff(env: Env, t: Tables, paranoia: nat, v: string)
    ensures AnyMatch(env, Values(HostBucket(t, paranoia)), v) <==> HostPatternMatches(env, t, paranoia, v)
  {
    forall p ensures p in Values(HostBucket(t, paranoia)) <==> HostPattern(t, paranoia, p) {
      HostBucketExact(t, paranoia, p);
    }
  }

  /** A pattern scanned everywhere matches a field or its collapsed copy. */
  ghost predicate MainScanHits(env: Env, t: Tables, paranoia: nat, req: Request) {
    exists v :: GateReads(env, req, v)
                && (|| MainPatternMatches(env, t, paranoia, v)
                    || (Collapsed(v).Some? && MainPatternMatches(env, t, paranoia, Collapsed(v).value)))
  }

  ghost predicate HostScanHits(env: Env, t: Tables, paranoia: nat, req: Request) {
    exists v :: HostIs(req, v) && HostPatternMatches(env, t, paranoia, v)
  }

  lemma MainScanIff(env: Env, t: Tables, paranoia: nat, req: Request)
    ensures (exists v :: v in MainSurface(env, req) && MainHit(env, MainBucket(t, paranoia), v))
            <==> MainScanHits(env, t, paranoia, req)
  {
    forall v
      ensures v in MainSurface(env, req) <==> GateReads(env, req, v)
      ensures AnyMatch(env, Values(MainBucket(t, paranoia)), v) <==> MainPatternMatches(env, t, paranoia, v)
    {
      GateExact(env, req, v);
      MainMatchIff(env, t, paranoia, v);
    }
  }

  lemma HostScanIff(env: Env, t: Tables, paranoia: nat, req: Request)
    ensures (exists v :: v in ValuesOf(req.headers, IsHostHeader) && AnyMatch(env, Values(HostBucket(t, paranoia)), v))
            <==> HostScanHits(env, t, paranoia, req)
  {
    forall v
      ensures v in ValuesOf(req.headers, IsHostHeader) <==> HostIs(req, v)
      ensures AnyMatch(env, Values(HostBucket(t, paranoia)), v) <==> HostPatternMatches(env, t, paranoia, v)
    {
      HostExact(req, v);
      HostMatchIff(env, t, paranoia, v);
    }
  }

  /** The prefilter objects to exactly the requests in which one of its scans hits. */
  lemma CandidateIff(env: Env, t: Tables, paranoia: nat, req: Request)
    ensures Candidate(env, MainBucket(t, paranoia), HostBucket(t, paranoia), req)
            <==> || MainScanHits(env, t, paranoia, req)
                 || KeyMatches(env, req, OPERATOR_KEY_PATTERN) || KeyMatches(env, req, PROTO_POLLUTION_PATTERN)
                 || HostScanHits(env, t, paranoia, req)
  {
    MainScanIff(env, t, paranoia, req);
    HostScanIff(env, t, paranoia, req);
    forall k ensures k in KeyStrings(req) <==> HasKey(req, k) {
      KeysExact(req, k);
    }
  }
}
