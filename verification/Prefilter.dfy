/**
  The content detection modules of waf-detection and the prefilter that may skip them all (lib.rs).
  Regex matching, header classification, multipart canonicalization and UTF-8 decoding are
  parameters: nothing below depends on what they do.
*/
module Prefilter {
  import opened Prelude
  import opened SqlComments

  datatype Severity = Critical | Error | Warning | Notice
  datatype Rule = Rule(id: string, pattern: string, severity: Severity, paranoia: nat)
  datatype Scope = AllFields | NonBody | HostHeaders | BodyOnly
  datatype HdrRule = HdrRule(rule: Rule, scope: Scope)
  datatype ScoreItem = ScoreItem(ruleId: string, severity: Severity)
  datatype Decision = Allow | Scores(items: seq<ScoreItem>)

  type Pairs = seq<(string, string)>
  datatype MultipartField = MultipartField(name: string, filename: Option<string>, data: seq<bv8>)
  datatype ParsedBody =
    | NoBody
    | FormUrlEncoded(params: Pairs)
    | Multipart(fields: seq<MultipartField>)
    | JsonFlattened(pairs: Pairs)
    | Raw(bytes: seq<bv8>)
  datatype Request = Request(
    path: string, queryParams: Pairs, cookies: Pairs, headers: Pairs, body: ParsedBody, derivedDecoded: seq<string>)

  /** The code the modules call but do not own. */
  datatype Env = Env(
    isMatch: (string, string) -> bool,
    headerInspectable: string -> bool,
    canonicalize: string -> string,
    fromUtf8: seq<bv8> -> Option<string>)

  /** The rule tables, one per module. */
  datatype Tables = Tables(
    sqli: seq<Rule>, xss: seq<Rule>, pathTraversal: seq<Rule>, rce: seq<Rule>, lfiRfi: seq<Rule>, ssrf: seq<Rule>,
    ldap: seq<Rule>, nosql: seq<Rule>, mail: seq<Rule>, ssti: seq<Rule>, scanner: seq<Rule>, ssi: seq<Rule>,
    xxe: seq<Rule>, headerInjection: seq<HdrRule>)

  const SHELLSHOCK_ID := "rce-shellshock"
  const SHELLSHOCK_PATTERN := "(?:^|[\\s;&|=])\\(\\)\\s*\\{"
  const OPERATOR_KEY_PATTERN := "\\$(?:or|and|nor|not|ne|eq|gt|gte|lt|lte|nin|in|regex|exists|expr|elemMatch|all|size|type|mod|where|jsonSchema)\\b"
  const PROTO_POLLUTION_PATTERN := "\\b__proto__\\b|\\bconstructor\\.prototype\\b"

  /** The shellshock rule and the dedicated User-Agent scan share one pattern. */
  predicate ValidTables(t: Tables) {
    forall r :: r in t.rce && r.id == SHELLSHOCK_ID ==> r.pattern == SHELLSHOCK_PATTERN
  }

  // ── surfaces ──────────────────────────────────────────────────────────────────────────────────

  function Names(ps: Pairs): seq<string> { seq(|ps|, i requires 0 <= i < |ps| => ps[i].0) }
  function Values(ps: Pairs): seq<string> { seq(|ps|, i requires 0 <= i < |ps| => ps[i].1) }

  function ValuesOf(ps: Pairs, keep: string -> bool): seq<string> {
    if ps == [] then [] else (if keep(ps[0].0) then [ps[0].1] else []) + ValuesOf(ps[1..], keep)
  }

  function IsHostHeader(name: string): bool { name == "host" || name == "x-forwarded-host" }
  function IsUserAgent(name: string): bool { name == "user-agent" }

  function MultipartStrings(env: Env, fields: seq<MultipartField>): seq<string> {
    if fields == [] then []
    else
      var f := fields[0];
      [env.canonicalize(f.name)]
      + (if f.filename.Some? then [env.canonicalize(f.filename.value)] else [])
      + (var s := env.fromUtf8(f.data); if s.Some? then [env.canonicalize(s.value)] else [])
      + MultipartStrings(env, fields[1..])
  }

  function BodyStrValues(env: Env, body: ParsedBody): seq<string> {
    match body
    case FormUrlEncoded(params) => Values(params)
    case JsonFlattened(pairs) => Values(pairs)
    case Multipart(fields) => MultipartStrings(env, fields)
    case Raw(bytes) =>
      var s := env.fromUtf8(bytes);
      if s.Some? && 0 !in bytes then [s.value] else []
    case NoBody => []
  }

  function BodyKeyStrings(body: ParsedBody): seq<string> {
    match body
    case FormUrlEncoded(params) => Names(params)
    case JsonFlattened(pairs) => Names(pairs)
    case Multipart(fields) => seq(|fields|, i requires 0 <= i < |fields| => fields[i].name)
    case _ => []
  }

  function KeyStrings(req: Request): seq<string> { Names(req.queryParams) + BodyKeyStrings(req.body) }

  /** Which fields a module's main rule set reads. */
  datatype Kind = Plain | WithoutPath | Sqli | Rce | Nosql | Scanner

  function ParamSurface(env: Env, req: Request): seq<string> {
    Values(req.queryParams) + Values(req.cookies) + BodyStrValues(env, req.body) + req.derivedDecoded
  }

  function PlainSurface(env: Env, req: Request): seq<string> {
    [req.path] + ParamSurface(env, req) + ValuesOf(req.headers, env.headerInspectable)
  }

  function CollapsedCopies(values: seq<string>): seq<string> {
    if values == [] then []
    else (var c := Collapsed(values[0]); if c.Some? then [c.value] else []) + CollapsedCopies(values[1..])
  }

  function Surface(env: Env, kind: Kind, req: Request): seq<string> {
    match kind
    case WithoutPath => ParamSurface(env, req)
    case Scanner => ValuesOf(req.headers, IsUserAgent)
    case Sqli => PlainSurface(env, req) + CollapsedCopies(PlainSurface(env, req))
    case _ => PlainSurface(env, req)
  }

  // ── matching ──────────────────────────────────────────────────────────────────────────────────

  predicate Fires(env: Env, pattern: string, values: seq<string>) {
    exists v :: v in values && env.isMatch(pattern, v)
  }

  predicate AnyMatch(env: Env, patterns: seq<string>, v: string) {
    exists p :: p in patterns && env.isMatch(p, v)
  }

  /** The indices below `n` of the rules that fire, in order. */
  function HitIndices(env: Env, rules: seq<Rule>, values: seq<string>, n: nat): (hits: seq<nat>)
    requires n <= |rules|
    ensures forall k :: 0 <= k < |hits| ==> hits[k] < n
  {
    if n == 0 then []
    else HitIndices(env, rules, values, n - 1) + (if Fires(env, rules[n - 1].pattern, values) then [n - 1] else [])
  }

  method AllMatches(env: Env, rules: seq<Rule>, values: seq<string>) returns (hits: seq<nat>)
    ensures hits == HitIndices(env, rules, values, |rules|)
  {
    var matched := new bool[|rules|](_ => false);
    for i := 0 to |values|
      invariant forall r :: 0 <= r < |rules| ==> matched[r] == Fires(env, rules[r].pattern, values[..i])
    {
      for r := 0 to |rules|
        invariant forall k :: r <= k < |rules| ==> matched[k] == Fires(env, rules[k].pattern, values[..i])
        invariant forall k :: 0 <= k < r ==> matched[k] == Fires(env, rules[k].pattern, values[..i + 1])
      {
        FiresOnOneMore(env, rules[r].pattern, values, i);
        if env.isMatch(rules[r].pattern, values[i]) {
          matched[r] := true;
        }
      }
    }
    assert values[..|values|] == values;
    hits := [];
    for r := 0 to |rules|
      invariant hits == HitIndices(env, rules, values, r)
    {
      if matched[r] {
        hits := hits + [r];
      }
    }
  }

  lemma FiresOnOneMore(env: Env, pattern: string, values: seq<string>, i: nat)
    requires i < |values|
    ensures Fires(env, pattern, values[..i + 1])
            <==> Fires(env, pattern, values[..i]) || env.isMatch(pattern, values[i])
  {
    assert values[..i + 1] == values[..i] + [values[i]];
    if env.isMatch(pattern, values[i]) {
      assert values[i] in values[..i + 1];
    }
  }

  /** Each firing rule is reported once, in table order, and nothing else is. */
  lemma {:induction false} HitIndicesExact(env: Env, rules: seq<Rule>, values: seq<string>, n: nat)
    requires n <= |rules|
    ensures var hits := HitIndices(env, rules, values, n);
            && (forall j, k :: 0 <= j < k < |hits| ==> hits[j] < hits[k])
            && (forall r: nat :: r < n ==> (r in hits <==> Fires(env, rules[r].pattern, values)))
  {
    if n > 0 {
      HitIndicesExact(env, rules, values, n - 1);
    }
  }

  // ── the modules ───────────────────────────────────────────────────────────────────────────────

  function Active(rules: seq<Rule>, paranoia: nat): (r: seq<Rule>)
    ensures forall x :: x in r <==> x in rules && x.paranoia <= paranoia
  {
    if rules == [] then []
    else
      var r := rules[|rules| - 1];
      Active(rules[..|rules| - 1], paranoia) + (if r.paranoia <= paranoia then [r] else [])
  }

  function ItemsAt(rules: seq<Rule>, hits: seq<nat>): seq<ScoreItem>
    requires forall k :: 0 <= k < |hits| ==> hits[k] < |rules|
  {
    seq(|hits|, k requires 0 <= k < |hits| => ScoreItem(rules[hits[k]].id, rules[hits[k]].severity))
  }

  predicate Reported(items: seq<ScoreItem>, id: string) { exists i :: 0 <= i < |items| && items[i].ruleId == id }

  function AddOnce(items: seq<ScoreItem>, fire: bool, id: string): seq<ScoreItem> {
    if fire && !Reported(items, id) then items + [ScoreItem(id, Critical)] else items
  }

  function Verdict(items: seq<ScoreItem>): Decision { if items == [] then Allow else Scores(items) }

  predicate ShellshockInUserAgent(env: Env, active: seq<Rule>, req: Request) {
    && (exists r :: r in active && r.id == SHELLSHOCK_ID)
    && var ua := ValuesOf(req.headers, IsUserAgent);
    ua != [] && env.isMatch(SHELLSHOCK_PATTERN, ua[0])
  }

  /** What a module initialised with `active` answers. */
  function Inspected(env: Env, kind: Kind, active: seq<Rule>, req: Request): Decision {
    var items := ItemsAt(active, HitIndices(env, active, Surface(env, kind, req), |active|));
    match kind
    case Rce => Verdict(AddOnce(items, ShellshockInUserAgent(env, active, req), SHELLSHOCK_ID))
    case Nosql =>
      var withOperator := AddOnce(items, Fires(env, OPERATOR_KEY_PATTERN, KeyStrings(req)), "nosql-operator-key");
      Verdict(AddOnce(withOperator, Fires(env, PROTO_POLLUTION_PATTERN, KeyStrings(req)), "proto-pollution-key"))
    case _ => Verdict(items)
  }

  class ContentModule {
    const kind: Kind
    const table: seq<Rule>
    var active: Option<seq<Rule>>

    constructor (kind: Kind, table: seq<Rule>)
      ensures this.kind == kind && this.table == table && active == None
    {
      this.kind, this.table, active := kind, table, None;
    }

    method Init(paranoia: nat)
      modifies this
      ensures active == Some(Active(table, paranoia))
    {
      var rules: seq<Rule> := [];
      for i := 0 to |table|
        invariant rules == Active(table[..i], paranoia)
      {
        assert table[..i + 1][..i] == table[..i];
        if table[i].paranoia <= paranoia {
          rules := rules + [table[i]];
        }
      }
      assert table[..|table|] == table;
      active := Some(rules);
    }

    method Inspect(env: Env, req: Request) returns (d: Decision)
      ensures d == if active.None? then Allow else Inspected(env, kind, active.value, req)
    {
      if active.None? {
        return Allow;
      }
      var matched := AllMatches(env, active.value, Surface(env, kind, req));
      var items := ItemsAt(active.value, matched);
      match kind {
        case Rce =>
          if ShellshockInUserAgent(env, active.value, req) && !Reported(items, SHELLSHOCK_ID) {
            items := items + [ScoreItem(SHELLSHOCK_ID, Critical)];
          }
        case Nosql =>
          var keys := KeyStrings(req);
          if Fires(env, OPERATOR_KEY_PATTERN, keys) && !Reported(items, "nosql-operator-key") {
            items := items + [ScoreItem("nosql-operator-key", Critical)];
          }
          if Fires(env, PROTO_POLLUTION_PATTERN, keys) && !Reported(items, "proto-pollution-key") {
            items := items + [ScoreItem("proto-pollution-key", Critical)];
          }
        case _ =>
      }
      return if items == [] then Allow else Scores(items);
    }
  }

  // ── header injection, the field-aware module ──────────────────────────────────────────────────

  function ScopeSurface(env: Env, scope: Scope, req: Request): seq<string> {
    var nonBody := [req.path] + Values(req.queryParams) + Values(req.cookies) + Values(req.headers);
    match scope
    case AllFields => nonBody + BodyStrValues(env, req.body)
    case NonBody => nonBody
    case HostHeaders => ValuesOf(req.headers, IsHostHeader)
    case BodyOnly => BodyStrValues(env, req.body)
  }

  function HeaderItems(env: Env, rules: seq<HdrRule>, paranoia: nat, req: Request): seq<ScoreItem> {
    if rules == [] then []
    else
      var r := rules[|rules| - 1];
      HeaderItems(env, rules[..|rules| - 1], paranoia, req)
      + (if r.rule.paranoia <= paranoia && Fires(env, r.rule.pattern, ScopeSurface(env, r.scope, req))
         then [ScoreItem(r.rule.id, r.rule.severity)] else [])
  }

  method InspectHeaderInjection(env: Env, rules: seq<HdrRule>, paranoia: nat, req: Request) returns (d: Decision)
    ensures d == Verdict(HeaderItems(env, rules, paranoia, req))
  {
    var items := [];
    for i := 0 to |rules|
      invariant items == HeaderItems(env, rules[..i], paranoia, req)
    {
      assert rules[..i + 1][..i] == rules[..i];
      var r := rules[i];
      if r.rule.paranoia <= paranoia && Fires(env, r.rule.pattern, ScopeSurface(env, r.scope, req)) {
        items := items + [ScoreItem(r.rule.id, r.rule.severity)];
      }
    }
    assert rules[..|rules|] == rules;
    return if items == [] then Allow else Scores(items);
  }

  // ── the prefilter ─────────────────────────────────────────────────────────────────────────────

  function TableList(t: Tables): seq<seq<Rule>> {
    [t.sqli, t.xss, t.pathTraversal, t.rce, t.lfiRfi, t.ssrf, t.ldap, t.nosql, t.mail, t.ssti, t.scanner, t.ssi, t.xxe]
  }

  /** `(id, pattern)` of the rules active at `paranoia`. */
  function Tags(rules: seq<Rule>, paranoia: nat): Pairs {
    var active := Active(rules, paranoia);
    seq(|active|, i requires 0 <= i < |active| => (active[i].id, active[i].pattern))
  }

  function TableTags(tables: seq<seq<Rule>>, paranoia: nat): Pairs {
    if tables == [] then []
    else TableTags(tables[..|tables| - 1], paranoia) + Tags(tables[|tables| - 1], paranoia)
  }

  function HeaderTags(rules: seq<HdrRule>, paranoia: nat, hostOnly: bool): Pairs {
    if rules == [] then []
    else
      var r := rules[|rules| - 1];
      HeaderTags(rules[..|rules| - 1], paranoia, hostOnly)
      + (if r.rule.paranoia <= paranoia && r.scope.HostHeaders? == hostOnly then [(r.rule.id, r.rule.pattern)] else [])
  }

  function MainBucket(t: Tables, paranoia: nat): Pairs {
    TableTags(TableList(t), paranoia) + HeaderTags(t.headerInjection, paranoia, false)
  }

  function HostBucket(t: Tables, paranoia: nat): Pairs { HeaderTags(t.headerInjection, paranoia, true) }

  lemma TagsStep(table: seq<Rule>, j: nat, paranoia: nat)
    requires j < |table|
    ensures Tags(table[..j + 1], paranoia)
            == Tags(table[..j], paranoia)
                + if table[j].paranoia <= paranoia then [(table[j].id, table[j].pattern)] else []
  {
    assert table[..j + 1][..j] == table[..j];
  }

  /** The inner loop: one table's active rules are added to the list. */
  method TagTable(table: seq<Rule>, paranoia: nat, before: Pairs) returns (main: Pairs)
    ensures main == before + Tags(table, paranoia)
  {
    main := before;
    for j := 0 to |table|
      invariant main == before + Tags(table[..j], paranoia)
    {
      TagsStep(table, j, paranoia);
      if table[j].paranoia <= paranoia {
        main := main + [(table[j].id, table[j].pattern)];
      }
    }
    assert table[..|table|] == table;
  }

  method TagTables(tables: seq<seq<Rule>>, paranoia: nat) returns (main: Pairs)
    ensures main == TableTags(tables, paranoia)
  {
    main := [];
    for i := 0 to |tables|
      invariant main == TableTags(tables[..i], paranoia)
    {
      assert tables[..i + 1][..i] == tables[..i];
      main := TagTable(tables[i], paranoia, main);
    }
    assert tables[..|tables|] == tables;
  }

  method ContentRulesSplit(t: Tables, paranoia: nat) returns (main: Pairs, host: Pairs)
    ensures main == MainBucket(t, paranoia) && host == HostBucket(t, paranoia)
  {
    main := TagTables(TableList(t), paranoia);
    host := [];
    ghost var before := main;
    var hs := t.headerInjection;
    for i := 0 to |hs|
      invariant main == before + HeaderTags(hs[..i], paranoia, false)
      invariant host == HeaderTags(hs[..i], paranoia, true)
    {
      assert hs[..i + 1][..i] == hs[..i];
      var r := hs[i];
      if r.rule.paranoia <= paranoia {
        if r.scope == HostHeaders {
          host := host + [(r.rule.id, r.rule.pattern)];
        } else {
          main := main + [(r.rule.id, r.rule.pattern)];
        }
      }
    }
    assert hs[..|hs|] == hs;
  }

  /** The union hits the value or its comment-collapsed copy. */
  predicate MainHit(env: Env, main: Pairs, v: string) {
    || AnyMatch(env, Values(main), v)
    || (Collapsed(v).Some? && AnyMatch(env, Values(main), Collapsed(v).value))
  }

  /** Everything the main bucket is scanned over. */
  function MainSurface(env: Env, req: Request): seq<string> {
    [req.path] + Values(req.queryParams) + Values(req.cookies) + Values(req.headers) + BodyStrValues(env, req.body)
    + req.derivedDecoded
  }

  predicate KeyHit(env: Env, k: string) {
    env.isMatch(OPERATOR_KEY_PATTERN, k) || env.isMatch(PROTO_POLLUTION_PATTERN, k)
  }

  predicate Candidate(env: Env, main: Pairs, host: Pairs, req: Request) {
    || (exists v :: v in MainSurface(env, req) && MainHit(env, main, v))
    || (exists k :: k in KeyStrings(req) && KeyHit(env, k))
    || (exists v :: v in ValuesOf(req.headers, IsHostHeader) && AnyMatch(env, Values(host), v))
  }

  class ContentPrefilter {
    const main: Pairs
    const host: Pairs

    constructor (t: Tables, paranoia: nat)
      ensures main == MainBucket(t, paranoia) && host == HostBucket(t, paranoia)
    {
      var m, h := ContentRulesSplit(t, paranoia);
      main, host := m, h;
    }

    method MainUnionHits(env: Env, v: string) returns (hit: bool)
      ensures hit == MainHit(env, main, v)
    {
      if AnyMatch(env, Values(main), v) {
        return true;
      }
      var collapsed := CollapseSqlBlockComments(v);
      return collapsed.Some? && AnyMatch(env, Values(main), collapsed.value);
    }

    method AnyMainHit(env: Env, values: seq<string>) returns (hit: bool)
      ensures hit <==> exists v :: v in values && MainHit(env, main, v)
    {
      for i := 0 to |values|
        invariant forall k :: 0 <= k < i ==> !MainHit(env, main, values[k])
      {
        var h := MainUnionHits(env, values[i]);
        if h {
          return true;
        }
      }
      return false;
    }

    method IsCandidate(env: Env, req: Request) returns (candidate: bool)
      ensures candidate == Candidate(env, main, host, req)
    {
      var hit := MainUnionHits(env, req.path);
      if hit {
        return true;
      }
      hit := AnyMainHit(env, Values(req.queryParams) + Values(req.cookies) + Values(req.headers));
      if hit {
        return true;
      }
      hit := AnyMainHit(env, BodyStrValues(env, req.body));
      if hit {
        return true;
      }
      if (exists k :: k in Names(req.queryParams) && KeyHit(env, k))
         || (exists k :: k in BodyKeyStrings(req.body) && KeyHit(env, k)) {
        return true;
      }
      hit := AnyMainHit(env, req.derivedDecoded);
      if hit {
        return true;
      }
      return exists v :: v in ValuesOf(req.headers, IsHostHeader) && AnyMatch(env, Values(host), v);
    }
  }

  // ── soundness ─────────────────────────────────────────────────────────────────────────────────

  lemma {:induction false} TableTagsCover(tables: seq<seq<Rule>>, i: nat, r: Rule, paranoia: nat)
    requires i < |tables| && r in tables[i] && r.paranoia <= paranoia
    ensures (r.id, r.pattern) in TableTags(tables, paranoia)
    decreases |tables|
  {
    if i == |tables| - 1 {
      var active := Active(tables[i], paranoia);
      var k :| 0 <= k < |active| && active[k] == r;
      assert Tags(tables[i], paranoia)[k] == (r.id, r.pattern);
    } else {
      TableTagsCover(tables[..|tables| - 1], i, r, paranoia);
    }
  }

  lemma {:induction false} HeaderTagsCover(rules: seq<HdrRule>, r: HdrRule, paranoia: nat)
    requires r in rules && r.rule.paranoia <= paranoia
    ensures (r.rule.id, r.rule.pattern) in HeaderTags(rules, paranoia, r.scope.HostHeaders?)
    decreases |rules|
  {
    if r != rules[|rules| - 1] {
      HeaderTagsCover(rules[..|rules| - 1], r, paranoia);
    }
  }

  /** A pattern of a listed pair takes part in the union. */
  lemma PairMatches(env: Env, ps: Pairs, p: (string, string), v: string)
    requires p in ps && env.isMatch(p.1, v)
    ensures AnyMatch(env, Values(ps), v)
  {
    var i :| 0 <= i < |ps| && ps[i] == p;
    assert Values(ps)[i] == p.1;
  }

  lemma {:induction false} ValuesOfSubset(ps: Pairs, keep: string -> bool, v: string)
    requires v in ValuesOf(ps, keep)
    ensures v in Values(ps)
    decreases |ps|
  {
    if keep(ps[0].0) && v == ps[0].1 {
      assert Values(ps)[0] == v;
    } else {
      ValuesOfSubset(ps[1..], keep, v);
      var i :| 0 <= i < |ps[1..]| && Values(ps[1..])[i] == v;
      assert Values(ps)[i + 1] == v;
    }
  }

  lemma {:induction false} CollapsedCopyOrigin(values: seq<string>, c: string) returns (v: string)
    requires c in CollapsedCopies(values)
    ensures v in values && Collapsed(v) == Some(c)
    decreases |values|
  {
    if Collapsed(values[0]) == Some(c) {
      v := values[0];
    } else {
      v := CollapsedCopyOrigin(values[1..], c);
    }
  }

  /** Whatever a module reads, the prefilter reads it or the value it was collapsed from. */
  lemma SurfaceCovered(env: Env, kind: Kind, req: Request, v: string) returns (w: string)
    requires v in Surface(env, kind, req)
    ensures w in MainSurface(env, req) && (w == v || Collapsed(w) == Some(v))
  {
    if v in PlainSurface(env, req) {
      w := v;
    } else if kind.Sqli? {
      w := CollapsedCopyOrigin(PlainSurface(env, req), v);
    } else {
      w := v;
    }
    if w in ValuesOf(req.headers, env.headerInspectable) {
      ValuesOfSubset(req.headers, env.headerInspectable, w);
    }
    if w in ValuesOf(req.headers, IsUserAgent) {
      ValuesOfSubset(req.headers, IsUserAgent, w);
    }
  }

  /** If a rule of table `i` fires anywhere in a module's surface, the request is a candidate. */
  lemma FiringRuleMakesCandidate(env: Env, t: Tables, paranoia: nat, kind: Kind, i: nat, r: Rule, req: Request)
    requires i < |TableList(t)| && r in TableList(t)[i] && r.paranoia <= paranoia
    requires Fires(env, r.pattern, Surface(env, kind, req))
    ensures Candidate(env, MainBucket(t, paranoia), HostBucket(t, paranoia), req)
  {
    var v :| v in Surface(env, kind, req) && env.isMatch(r.pattern, v);
    var w := SurfaceCovered(env, kind, req, v);
    TableTagsCover(TableList(t), i, r, paranoia);
    PairMatches(env, MainBucket(t, paranoia), (r.id, r.pattern), v);
    assert MainHit(env, MainBucket(t, paranoia), w);
  }

  lemma SkippedRulesSilent(env: Env, t: Tables, paranoia: nat, kind: Kind, i: nat, req: Request)
    requires i < |TableList(t)|
    requires !Candidate(env, MainBucket(t, paranoia), HostBucket(t, paranoia), req)
    ensures var active := Active(TableList(t)[i], paranoia);
            HitIndices(env, active, Surface(env, kind, req), |active|) == []
  {
    var active := Active(TableList(t)[i], paranoia);
    var hits := HitIndices(env, active, Surface(env, kind, req), |active|);
    HitIndicesExact(env, active, Surface(env, kind, req), |active|);
    if hits != [] {
      assert hits[0] in hits;
      FiringRuleMakesCandidate(env, t, paranoia, kind, i, active[hits[0]], req);
    }
  }

  /** A skipped request would have been allowed by the module of table `i`. */
  lemma SkippedModuleAllows(env: Env, t: Tables, paranoia: nat, kind: Kind, i: nat, req: Request)
    requires ValidTables(t) && i < |TableList(t)| && (kind.Rce? ==> TableList(t)[i] == t.rce)
    requires !Candidate(env, MainBucket(t, paranoia), HostBucket(t, paranoia), req)
    ensures Inspected(env, kind, Active(TableList(t)[i], paranoia), req) == Allow
  {
    SkippedRulesSilent(env, t, paranoia, kind, i, req);
    if kind.Rce? && ShellshockInUserAgent(env, Active(TableList(t)[i], paranoia), req) {
      UserAgentMakesCandidate(env, t, paranoia, i, req);
    }
    if kind.Nosql? {
      assert forall k :: k in KeyStrings(req) ==> !KeyHit(env, k);
    }
  }

  lemma UserAgentMakesCandidate(env: Env, t: Tables, paranoia: nat, i: nat, req: Request)
    requires ValidTables(t) && i < |TableList(t)| && TableList(t)[i] == t.rce
    requires ShellshockInUserAgent(env, Active(t.rce, paranoia), req)
    ensures Candidate(env, MainBucket(t, paranoia), HostBucket(t, paranoia), req)
  {
    var r :| r in Active(t.rce, paranoia) && r.id == SHELLSHOCK_ID;
    var ua := ValuesOf(req.headers, IsUserAgent)[0];
    assert ua in Surface(env, Scanner, req);
    FiringRuleMakesCandidate(env, t, paranoia, Scanner, i, r, req);
  }

  lemma {:induction false} SkippedHeaderModuleAllows(
    env: Env, t: Tables, rules: seq<HdrRule>, paranoia: nat, req: Request)
    requires forall r :: r in rules ==> r in t.headerInjection
    requires !Candidate(env, MainBucket(t, paranoia), HostBucket(t, paranoia), req)
    ensures HeaderItems(env, rules, paranoia, req) == []
    decreases |rules|
  {
    if rules != [] {
      SkippedHeaderModuleAllows(env, t, rules[..|rules| - 1], paranoia, req);
      var r := rules[|rules| - 1];
      if r.rule.paranoia <= paranoia && Fires(env, r.rule.pattern, ScopeSurface(env, r.scope, req)) {
        var v :| v in ScopeSurface(env, r.scope, req) && env.isMatch(r.rule.pattern, v);
        HeaderTagsCover(t.headerInjection, r, paranoia);
        if r.scope == HostHeaders {
          PairMatches(env, HostBucket(t, paranoia), (r.rule.id, r.rule.pattern), v);
        } else {
          PairMatches(env, MainBucket(t, paranoia), (r.rule.id, r.rule.pattern), v);
          assert v in MainSurface(env, req) && MainHit(env, MainBucket(t, paranoia), v);
        }
      }
    }
  }

  /** The shipped modules, in the order of `TableList`. */
  const KINDS: seq<Kind> :=
    [Sqli, Plain, Plain, Rce, WithoutPath, WithoutPath, Plain, Nosql, Plain, Plain, Scanner, Plain, Plain]

  /** The decisions of all fourteen content modules. */
  function FullInspection(env: Env, t: Tables, paranoia: nat, req: Request): seq<Decision> {
    seq(13, i requires 0 <= i < 13 => Inspected(env, KINDS[i], Active(TableList(t)[i], paranoia), req))
    + [Verdict(HeaderItems(env, t.headerInjection, paranoia, req))]
  }

  /** The fast path: inspection is skipped, and everything allowed, unless the prefilter objects. */
  function GatedInspection(env: Env, t: Tables, paranoia: nat, req: Request): seq<Decision> {
    if Candidate(env, MainBucket(t, paranoia), HostBucket(t, paranoia), req) then FullInspection(env, t, paranoia, req)
    else seq(14, _ => Allow)
  }

  lemma RceHasItsTable(t: Tables, i: nat)
    requires i < 13 && KINDS[i].Rce?
    ensures TableList(t)[i] == t.rce
  {}

  lemma SkippedDecision(env: Env, t: Tables, paranoia: nat, req: Request, i: nat)
    requires ValidTables(t) && i < 14 && !Candidate(env, MainBucket(t, paranoia), HostBucket(t, paranoia), req)
    ensures FullInspection(env, t, paranoia, req)[i] == Allow
  {
    if i < 13 {
      if KINDS[i].Rce? {
        RceHasItsTable(t, i);
      }
      SkippedModuleAllows(env, t, paranoia, KINDS[i], i, req);
    } else {
      SkippedHeaderModuleAllows(env, t, t.headerInjection, paranoia, req);
    }
  }

  /** Skipping never changes a decision, whatever the patterns match and whatever the request holds. */
  lemma GateIsTransparent(env: Env, t: Tables, paranoia: nat, req: Request)
    requires ValidTables(t)
    ensures GatedInspection(env, t, paranoia, req) == FullInspection(env, t, paranoia, req)
  {
    if !Candidate(env, MainBucket(t, paranoia), HostBucket(t, paranoia), req) {
      var full := FullInspection(env, t, paranoia, req);
      forall i | 0 <= i < 14
        ensures full[i] == Allow
      {
        SkippedDecision(env, t, paranoia, req, i);
      }
      assert full == seq(14, _ => Allow);
    }
  }
}
