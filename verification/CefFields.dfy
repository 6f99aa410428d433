/** What a CEF line tells a reader about its event, field by field, without the printer's own lists. */
module CefFields {
  import opened Prelude
  import opened Cef

  // ── numbers ───────────────────────────────────────────────────────────────────────────────────

  function ReadNat(s: string): Option<nat> {
    if s == [] then None
    else
      var c := s[|s| - 1];
      if !('0' <= c <= '9') then None
      else
        var digit := c as int - '0' as int;
        if |s| == 1 then Some(digit)
        else match ReadNat(s[..|s| - 1])
             case None => None
             case Some(n) => Some(10 * n + digit)
  }

  function ReadInt(s: string): Option<int> {
    var n := ReadNat(if s != [] && s[0] == '-' then s[1..] else s);
    if n.None? then None else if s[0] == '-' then Some(-(n.value as int)) else Some(n.value as int)
  }

  /** A printed number reads back, and starts with a digit. */
  lemma {:induction false} NatReadsBack(n: nat)
    ensures ReadNat(NatText(n)) == Some(n) && NatText(n) != [] && '0' <= NatText(n)[0] <= '9'
  {
    if n >= 10 {
      NatReadsBack(n / 10);
      assert NatText(n)[..|NatText(n)| - 1] == NatText(n / 10);
    }
  }

  lemma IntReadsBack(n: int)
    ensures ReadInt(IntText(n)) == Some(n)
  {
    NatReadsBack(if n < 0 then -n else n);
    if n < 0 {
      assert IntText(n)[1..] == NatText(-n);
    }
  }

  // ── texts ─────────────────────────────────────────────────────────────────────────────────────

  /** A text is cut after `max` characters, and only then. */
  lemma ClipExact(s: string, max: nat)
    ensures Clip(s, max) <= s && |Clip(s, max)| == if |s| <= max then |s| else max
  {}

  /** Parts are put together with separators between them and nowhere else. */
  lemma {:induction false} JoinSplits(a: seq<string>, b: seq<string>, sep: string)
    ensures Join([], sep) == ""
    ensures |a| == 1 ==> Join(a, sep) == a[0]
    ensures a != [] && b != [] ==> Join(a + b, sep) == Join(a, sep) + sep + Join(b, sep)
    decreases |a|
  {
    if a != [] && b != [] {
      assert (a + b)[1..] == a[1..] + b;
      if |a| == 1 {
        assert a[1..] + b == b;
      } else {
        JoinSplits(a[1..], b, sep);
        assert Join(a, sep) + sep + Join(b, sep) == a[0] + sep + (Join(a[1..], sep) + sep + Join(b, sep));
      }
    }
  }

  /** Printable ASCII, and everything from U+00A0 on, reads back as it is. */
  lemma ShownUnchanged(s: string, i: nat)
    requires i < |s| && (0x20 <= s[i] as int <= 0x7E || 0xA0 <= s[i] as int)
    ensures BlankHeader(s)[i] == s[i] && BlankValue(s)[i] == s[i]
  {}

  /** A contribution is shown as its origin, its rule and its points, which read back. */
  lemma ContributionShown(cs: seq<Contribution>, i: nat)
    requires i < |cs|
    ensures var front := cs[i].origin + [':'] + cs[i].ruleId + [':'];
            var text := ContributionTexts(cs)[i];
            |ContributionTexts(cs)| == |cs| && front <= text && ReadNat(text[|front|..]) == Some(cs[i].points)
  {
    NatReadsBack(cs[i].points);
    var front := cs[i].origin + [':'] + cs[i].ruleId + [':'];
    assert ContributionTexts(cs)[i] == front + NatText(cs[i].points);
  }

  // ── severities ────────────────────────────────────────────────────────────────────────────────

  lemma {:induction false} LowerOfLower(s: string)
    requires forall i :: 0 <= i < |s| ==> 'a' <= s[i] <= 'z'
    ensures Lower(s) == s
  {
    if s != [] {
      LowerOfLower(s[1..]);
    }
  }

  lemma NamedSeverity(text: string, name: string)
    requires forall i :: 0 <= i < |name| ==> 'a' <= name[i] <= 'z'
    ensures Lower(text) == name <==> SameLetters(text, name)
  {
    SameLowerIff(text, name);
    LowerOfLower(name);
  }

  /** The four names, in any case, have their number; any other text has none. */
  lemma SeverityScale(text: string)
    ensures SeverityOf(text)
            == if SameLetters(text, "critical") then 9
               else if SameLetters(text, "error") then 7
               else if SameLetters(text, "warning") then 5
               else if SameLetters(text, "notice") then 3
               else 0
  {
    NamedSeverity(text, "critical");
    NamedSeverity(text, "error");
    NamedSeverity(text, "warning");
    NamedSeverity(text, "notice");
  }

  predicate HasSeverity(c: Contribution, n: nat) { c.severity.Some? && SeverityOf(c.severity.value) == n }

  /** The highest severity among the contributions, zero if none names one. */
  lemma {:induction false} MaxSeverityExact(cs: seq<Contribution>)
    ensures forall i :: 0 <= i < |cs| && cs[i].severity.Some? ==> SeverityOf(cs[i].severity.value) <= MaxSeverity(cs)
    ensures MaxSeverity(cs) == 0 || exists i :: 0 <= i < |cs| && HasSeverity(cs[i], MaxSeverity(cs))
  {
    if cs != [] {
      MaxSeverityExact(cs[1..]);
      forall i | 0 <= i < |cs[1..]| ensures cs[1..][i] == cs[i + 1] {}
      if MaxSeverity(cs) > 0 {
        if cs[0].severity.Some? && SeverityOf(cs[0].severity.value) == MaxSeverity(cs) {
          assert HasSeverity(cs[0], MaxSeverity(cs));
        } else {
          var i :| 0 <= i < |cs[1..]| && HasSeverity(cs[1..][i], MaxSeverity(cs[1..]));
          assert HasSeverity(cs[i + 1], MaxSeverity(cs));
        }
      }
    }
  }

  // ── the header ────────────────────────────────────────────────────────────────────────────────

  /** The id of what fired: the alert's rule, the audited action, the rule that matched, else the decision. */
  lemma SignatureTells(ev: SiemEvent)
    ensures Signature(ev)
            == match (ev.alert, ev.audit, ev.ruleId)
               case (Some(alert), _, _) => "alert-" + alert.rule
               case (None, Some(_), _) => "audit-" + ev.action
               case (None, None, Some(rule)) => rule
               case (None, None, None) => "decision-" + ev.action
  {}

  /** The kind of event in words. */
  lemma NameTells(ev: SiemEvent)
    ensures ev.alert.Some? ==> Name(ev) == "Alert fired"
    ensures ev.alert.None? && ev.audit.Some? ==> Name(ev) == "Audit event"
    ensures ev.alert.None? && ev.audit.None? ==>
              Name(ev) == match ev.action
                          case "blocked" => "Request blocked"
                          case "rejected" => "Request rejected"
                          case _ => "Request denied"
  {}

  /** The severity of an alert is its own, of an audit record 3, of a decision the highest of its contributions. */
  lemma SeverityTells(ev: SiemEvent)
    ensures ev.alert.Some? ==> Severity(ev) == SeverityOf(ev.alert.value.severity)
    ensures ev.alert.None? && ev.audit.Some? ==> Severity(ev) == 3
    ensures ev.alert.None? && ev.audit.None? ==> Severity(ev) == MaxSeverity(ev.contributions)
  {}

  /** The header of a line: who observed, what fired, in words, and how severe. */
  lemma HeaderTells(ev: SiemEvent, h: seq<string>)
    requires ReadLine(Line(ev)).Some? && h == ReadLine(Line(ev)).value.header
    ensures |h| == 7 && h[0] == "CEF:0"
    ensures h[1] == BlankHeader(ev.observer.vendor) && h[2] == BlankHeader(ev.observer.product)
    ensures h[3] == BlankHeader(ev.observer.version) && h[4] == BlankHeader(Clip(Signature(ev), 1023))
    ensures h[5] == Name(ev) && ReadNat(h[6]) == Some(Severity(ev))
  {
    LineReadsBack(ev);
    VersionBlank();
    SevenRead(h, "CEF:0", ev.observer, Clip(Signature(ev), 1023), Name(ev), Severity(ev), ev);
  }

  /** The seven fields of a header, given by name. */
  lemma SevenRead(h: seq<string>, version: string, obs: Observer, signature: string, name: string, severity: nat,
                  ev: SiemEvent)
    requires h == BlankFields([version, obs.vendor, obs.product, obs.version, signature, name, NatText(severity)])
    requires BlankHeader(version) == version && name == Name(ev)
    ensures |h| == 7 && h[0] == version && h[1] == BlankHeader(obs.vendor) && h[2] == BlankHeader(obs.product)
    ensures h[3] == BlankHeader(obs.version) && h[4] == BlankHeader(signature) && h[5] == name
    ensures ReadNat(h[6]) == Some(severity)
  {
    NameBlank(ev);
    SeverityBlank(severity);
  }

  lemma NameBlank(ev: SiemEvent)
    ensures BlankHeader(Name(ev)) == Name(ev)
  {
    NamePlain(ev);
    PlainHeaderUnchanged(Name(ev));
  }

  lemma SeverityBlank(n: nat)
    ensures ReadNat(BlankHeader(NatText(n))) == Some(n)
  {
    NatTextPlain(n);
    PlainHeaderUnchanged(NatText(n));
    NatReadsBack(n);
  }

  lemma VersionBlank()
    ensures BlankHeader("CEF:0") == "CEF:0"
  {
    PlainHeaderUnchanged("CEF:0");
  }

  // ── the extension ─────────────────────────────────────────────────────────────────────────────

  predicate OptTells(p: Pair, key: string, value: Option<string>, max: nat) {
    value.Some? && p == (key, Clip(value.value, max))
  }

  /** A pair that tells about the event itself. */
  predicate EventTells(ev: SiemEvent, p: Pair) {
    || p == ("externalId", Clip(ev.id, 40))
    || (ev.nanos.Some? && p == ("rt", Clip(IntText(Millis(ev.nanos.value)), 1023)))
    || p == ("act", Clip(ev.action, 63))
    || p == ("cat", Clip(Join(ev.category, ","), 1023))
    || OptTells(p, "outcome", ev.outcome, 63)
    || OptTells(p, "src", ev.sourceIp, 1023)
  }

  /** A pair that tells about the request. */
  predicate RequestTells(ev: SiemEvent, p: Pair) {
    || OptTells(p, "requestMethod", ev.verb, 1023)
    || OptTells(p, "request", ev.path, 1023)
    || OptTells(p, "suser", ev.userName, 1023)
    || OptTells(p, "msg", ev.message, 1023)
    || OptTells(p, "dvchost", ev.node, 100)
  }

  /** A pair of the two that tell a number or text under a label. */
  predicate Labelled(p: Pair, key: string, value: string, meaning: string) {
    p == (key, value) || p == (key + "Label", meaning)
  }

  predicate ScoreTells(ev: SiemEvent, p: Pair) {
    || (ev.score.Some? && Labelled(p, "cn1", Clip(IntText(ev.score.value), 1023), "score"))
    || (ev.contributions != []
        && Labelled(p, "cs1", Clip(Join(ContributionTexts(ev.contributions), ","), 4000), "contributions"))
  }

  predicate AlertTells(a: Alert, p: Pair) {
    || Labelled(p, "cn1", Clip(IntText(a.value), 1023), "value")
    || Labelled(p, "cn2", Clip(IntText(a.threshold), 1023), "threshold")
    || (a.group != "" && Labelled(p, "cs1", Clip(a.group, 4000), "group"))
  }

  predicate AuditTells(a: Audit, p: Pair) {
    || Labelled(p, "cn1", Clip(IntText(a.seqNo), 1023), "auditSeq")
    || Labelled(p, "cs1", Clip(a.hash, 4000), "auditHash")
    || Labelled(p, "cs2", Clip(a.signature, 4000), "auditSignature")
    || Labelled(p, "cs3", Clip(a.prevHash, 4000), "auditPrevHash")
  }

  /** A pair the event gives rise to. */
  predicate Tells(ev: SiemEvent, p: Pair) {
    || EventTells(ev, p) || RequestTells(ev, p) || ScoreTells(ev, p)
    || (ev.alert.Some? && AlertTells(ev.alert.value, p))
    || (ev.audit.Some? && AuditTells(ev.audit.value, p))
  }

  /** Whole milliseconds, counted toward zero. */
  function Millis(nanos: int): int { TruncDiv(nanos, 1_000_000) }

  lemma MillisExact(nanos: int)
    ensures var ms := Millis(nanos);
            if nanos >= 0 then 1_000_000 * ms <= nanos < 1_000_000 * ms + 1_000_000
            else 1_000_000 * ms - 1_000_000 < nanos <= 1_000_000 * ms
  {}

  lemma FlattenThree(a: seq<Pair>, b: seq<Pair>, c: seq<Pair>, p: Pair)
    ensures p in Flatten([a, b, c]) <==> p in a || p in b || p in c
  {
    assert [a, b, c][1..] == [b, c] && [b, c][1..] == [c] && [c][1..] == [];
    assert Flatten([c]) == c + Flatten([]);
  }

  lemma FlattenFive(a: seq<Pair>, b: seq<Pair>, c: seq<Pair>, d: seq<Pair>, e: seq<Pair>, p: Pair)
    ensures p in Flatten([a, b, c, d, e]) <==> p in a || p in b || p in c || p in d || p in e
  {
    assert [a, b, c, d, e][1..] == [b, c, d, e] && [b, c, d, e][1..] == [c, d, e];
    FlattenThree(c, d, e, p);
  }

  lemma EventExact(ev: SiemEvent, p: Pair)
    ensures p in Flatten(EventGroups(ev)) <==> EventTells(ev, p)
  {
    var g := EventGroups(ev);
    FlattenFive(g[0], g[1], g[2], g[3], g[4], p);
    assert g == [g[0], g[1], g[2], g[3], g[4]];
  }

  lemma RequestExact(ev: SiemEvent, p: Pair)
    ensures p in Flatten(RequestGroups(ev)) <==> RequestTells(ev, p)
  {
    var g := RequestGroups(ev);
    FlattenFive(g[0], g[1], g[2], g[3], g[4], p);
    assert g == [g[0], g[1], g[2], g[3], g[4]];
  }

  lemma LabelKeys()
    ensures "cn1" + "Label" == "cn1Label" && "cn2" + "Label" == "cn2Label" && "cs1" + "Label" == "cs1Label"
    ensures "cs2" + "Label" == "cs2Label" && "cs3" + "Label" == "cs3Label"
  {}

  lemma ScoreExact(ev: SiemEvent, p: Pair)
    ensures p in ScorePairs(ev) <==> ScoreTells(ev, p)
  {
    LabelKeys();
  }

  lemma AlertExact(a: Alert, p: Pair)
    ensures p in AlertPairs(a) <==> AlertTells(a, p)
  {
    LabelKeys();
  }

  lemma AuditExact(a: Audit, p: Pair)
    ensures p in AuditPairs(a) <==> AuditTells(a, p)
  {
    LabelKeys();
  }

  lemma ExtensionExact(ev: SiemEvent, p: Pair)
    ensures p in Extension(ev) <==> Tells(ev, p)
  {
    EventExact(ev, p);
    RequestExact(ev, p);
    var g := WafGroups(ev);
    FlattenThree(g[0], g[1], g[2], p);
    assert g == [g[0], g[1], g[2]];
    ScoreExact(ev, p);
    if ev.alert.Some? {
      AlertExact(ev.alert.value, p);
    }
    if ev.audit.Some? {
      AuditExact(ev.audit.value, p);
    }
  }

  /** The pairs a reader of the line finds are exactly those the event tells, control characters blanked. */
  lemma LineTellsEvent(ev: SiemEvent, key: string, value: string)
    ensures ReadLine(Line(ev)).Some?
    ensures (key, value) in ReadLine(Line(ev)).value.extension
            <==> exists v :: Tells(ev, (key, v)) && value == BlankValue(v)
  {
    LineReadsBack(ev);
    var ps := Extension(ev);
    forall v ensures (key, v) in ps <==> Tells(ev, (key, v)) {
      ExtensionExact(ev, (key, v));
    }
    BlankPairMembers(ps, key, value);
  }

  lemma BlankPairMembers(ps: seq<Pair>, key: string, value: string)
    ensures (key, value) in BlankPairs(ps) <==> exists v :: (key, v) in ps && value == BlankValue(v)
  {
    if (key, value) in BlankPairs(ps) {
      var i :| 0 <= i < |ps| && BlankPairs(ps)[i] == (key, value);
      assert (key, ps[i].1) == ps[i];
    }
    if v :| (key, v) in ps && value == BlankValue(v) {
      var i :| 0 <= i < |ps| && ps[i] == (key, v);
      assert BlankPairs(ps)[i] == (key, value);
    }
  }
}
