/**
  The CEF export of the control plane (siem.rs): escaping, clipping and framing, and a reader that
  undoes them. The RFC 3339 timestamp of an event is given as its parsed Unix nanoseconds.
*/
module Cef {
  import opened Prelude

  datatype Contribution = Contribution(origin: string, ruleId: string, severity: Option<string>, points: nat)
  datatype Alert = Alert(rule: string, group: string, value: int, threshold: int, severity: string)
  datatype Audit = Audit(seqNo: int, hash: string, signature: string, prevHash: string)
  datatype Observer = Observer(vendor: string, product: string, version: string)
  datatype SiemEvent = SiemEvent(
    id: string, nanos: Option<int>, action: string, category: seq<string>, outcome: Option<string>,
    sourceIp: Option<string>, verb: Option<string>, path: Option<string>, ruleId: Option<string>,
    userName: Option<string>, message: Option<string>, observer: Observer, node: Option<string>,
    score: Option<int>, contributions: seq<Contribution>, audit: Option<Audit>, alert: Option<Alert>)

  type Pair = (string, string)

  // ── characters ────────────────────────────────────────────────────────────────────────────────

  /** Unicode category Cc. */
  predicate IsControl(c: char) { (c as int) < 0x20 || 0x7F <= (c as int) <= 0x9F }

  function HeaderChar(c: char): string {
    if c == '\\' then "\\\\"
    else if c == '|' then "\\|"
    else if IsControl(c) then " "
    else [c]
  }

  function ValueChar(c: char): string {
    if c == '\\' then "\\\\"
    else if c == '=' then "\\="
    else if c == '\n' then "\\n"
    else if c == '\r' then "\\r"
    else if IsControl(c) then " "
    else [c]
  }

  function EscapeHeader(s: string): string { if s == [] then [] else HeaderChar(s[0]) + EscapeHeader(s[1..]) }

  function EscapeValue(s: string): string { if s == [] then [] else ValueChar(s[0]) + EscapeValue(s[1..]) }

  /** What survives of a header field: control characters are blanked. */
  function BlankHeader(s: string): string {
    seq(|s|, i requires 0 <= i < |s| => if IsControl(s[i]) then ' ' else s[i])
  }

  /** What survives of an extension value: control characters other than line breaks are blanked. */
  function BlankValue(s: string): string {
    seq(|s|, i requires 0 <= i < |s| => if IsControl(s[i]) && s[i] != '\n' && s[i] != '\r' then ' ' else s[i])
  }

  method CefHeader(value: string) returns (out: string)
    ensures out == EscapeHeader(value)
  {
    out := "";
    for i := 0 to |value|
      invariant out == EscapeHeader(value[..i])
    {
      EscapeHeaderStep(value, i);
      match value[i] {
        case '\\' => out := out + "\\\\";
        case '|' => out := out + "\\|";
        case c =>
          if IsControl(c) {
            out := out + " ";
          } else {
            out := out + [c];
          }
      }
    }
    assert value[..|value|] == value;
  }

  method CefValue(value: string) returns (out: string)
    ensures out == EscapeValue(value)
  {
    out := "";
    for i := 0 to |value|
      invariant out == EscapeValue(value[..i])
    {
      EscapeValueStep(value, i);
      match value[i] {
        case '\\' => out := out + "\\\\";
        case '=' => out := out + "\\=";
        case '\n' => out := out + "\\n";
        case '\r' => out := out + "\\r";
        case c =>
          if IsControl(c) {
            out := out + " ";
          } else {
            out := out + [c];
          }
      }
    }
    assert value[..|value|] == value;
  }

  /** Clipping counts source characters, before escaping. */
  function Clip(value: string, max: nat): string { if |value| <= max then value else value[..max] }

  lemma {:induction false} EscapeHeaderStep(s: string, i: nat)
    requires i < |s|
    ensures EscapeHeader(s[..i + 1]) == EscapeHeader(s[..i]) + HeaderChar(s[i])
    decreases i
  {
    if i == 0 {
      assert EscapeHeader(s[..1]) == HeaderChar(s[0]) + EscapeHeader(s[..1][1..]);
    } else {
      EscapeHeaderStep(s[1..], i - 1);
      assert s[..i + 1][1..] == s[1..][..i] && s[..i][1..] == s[1..][..i - 1];
    }
  }

  lemma {:induction false} EscapeValueStep(s: string, i: nat)
    requires i < |s|
    ensures EscapeValue(s[..i + 1]) == EscapeValue(s[..i]) + ValueChar(s[i])
    decreases i
  {
    if i == 0 {
      assert EscapeValue(s[..1]) == ValueChar(s[0]) + EscapeValue(s[..1][1..]);
    } else {
      EscapeValueStep(s[1..], i - 1);
      assert s[..i + 1][1..] == s[1..][..i] && s[..i][1..] == s[1..][..i - 1];
    }
  }

  // ── an event as header fields and extension pairs ─────────────────────────────────────────────

  function NatText(n: nat): string {
    if n < 10 then [('0' as int + n) as char] else NatText(n / 10) + [('0' as int + n % 10) as char]
  }

  function IntText(n: int): string { if n < 0 then "-" + NatText(-n) else NatText(n) }

  function Join(parts: seq<string>, sep: string): string {
    if parts == [] then "" else if |parts| == 1 then parts[0] else parts[0] + sep + Join(parts[1..], sep)
  }

  function SeverityOf(text: string): nat {
    match Lower(text)
    case "critical" => 9
    case "error" => 7
    case "warning" => 5
    case "notice" => 3
    case _ => 0
  }

  function MaxSeverity(cs: seq<Contribution>): nat {
    if cs == [] then 0
    else
      var rest := MaxSeverity(cs[1..]);
      var own := if cs[0].severity.Some? then SeverityOf(cs[0].severity.value) else 0;
      if own >= rest then own else rest
  }

  function Severity(ev: SiemEvent): nat {
    if ev.alert.Some? then SeverityOf(ev.alert.value.severity)
    else if ev.audit.Some? then 3
    else MaxSeverity(ev.contributions)
  }

  function Signature(ev: SiemEvent): string {
    if ev.alert.Some? then "alert-" + ev.alert.value.rule
    else if ev.audit.Some? then "audit-" + ev.action
    else if ev.ruleId.Some? then ev.ruleId.value
    else "decision-" + ev.action
  }

  function Name(ev: SiemEvent): string {
    if ev.alert.Some? then "Alert fired"
    else if ev.audit.Some? then "Audit event"
    else if ev.action == "blocked" then "Request blocked"
    else if ev.action == "rejected" then "Request rejected"
    else "Request denied"
  }

  /** The seven header fields before escaping. */
  function HeaderFields(ev: SiemEvent): seq<string> {
    ["CEF:0", ev.observer.vendor, ev.observer.product, ev.observer.version, Clip(Signature(ev), 1023), Name(ev),
     NatText(Severity(ev))]
  }

  function Opt(key: string, value: Option<string>, max: nat): seq<Pair> {
    if value.Some? then [(key, Clip(value.value, max))] else []
  }

  function TruncDiv(x: int, y: nat): int
    requires y > 0
  {
    if x >= 0 then x / y else -(-x / y)
  }

  function ContributionTexts(cs: seq<Contribution>): seq<string> {
    seq(|cs|, i requires 0 <= i < |cs| => cs[i].origin + ":" + cs[i].ruleId + ":" + NatText(cs[i].points))
  }

  function ScorePairs(ev: SiemEvent): seq<Pair> {
    (if ev.score.Some? then [("cn1", Clip(IntText(ev.score.value), 1023)), ("cn1Label", "score")] else [])
    + (if ev.contributions != [] then
         [("cs1", Clip(Join(ContributionTexts(ev.contributions), ","), 4000)), ("cs1Label", "contributions")]
       else [])
  }

  function AlertPairs(a: Alert): seq<Pair> {
    [("cn1", Clip(IntText(a.value), 1023)), ("cn1Label", "value"),
     ("cn2", Clip(IntText(a.threshold), 1023)), ("cn2Label", "threshold")]
    + if a.group != "" then [("cs1", Clip(a.group, 4000)), ("cs1Label", "group")] else []
  }

  function AuditPairs(a: Audit): seq<Pair> {
    [("cn1", Clip(IntText(a.seqNo), 1023)), ("cn1Label", "auditSeq"),
     ("cs1", Clip(a.hash, 4000)), ("cs1Label", "auditHash"),
     ("cs2", Clip(a.signature, 4000)), ("cs2Label", "auditSignature"),
     ("cs3", Clip(a.prevHash, 4000)), ("cs3Label", "auditPrevHash")]
  }

  function Flatten(groups: seq<seq<Pair>>): seq<Pair> {
    if groups == [] then [] else groups[0] + Flatten(groups[1..])
  }

  /** The pairs every kind of event may carry, group by group, values already clipped. */
  function EventGroups(ev: SiemEvent): seq<seq<Pair>> {
    [ [("externalId", Clip(ev.id, 40))],
      if ev.nanos.Some? then [("rt", Clip(IntText(TruncDiv(ev.nanos.value, 1_000_000)), 1023))] else [],
      [("act", Clip(ev.action, 63)), ("cat", Clip(Join(ev.category, ","), 1023))],
      Opt("outcome", ev.outcome, 63),
      Opt("src", ev.sourceIp, 1023) ]
  }

  function RequestGroups(ev: SiemEvent): seq<seq<Pair>> {
    [ Opt("requestMethod", ev.verb, 1023),
      Opt("request", ev.path, 1023),
      Opt("suser", ev.userName, 1023),
      Opt("msg", ev.message, 1023),
      Opt("dvchost", ev.node, 100) ]
  }

  function WafGroups(ev: SiemEvent): seq<seq<Pair>> {
    [ ScorePairs(ev),
      if ev.alert.Some? then AlertPairs(ev.alert.value) else [],
      if ev.audit.Some? then AuditPairs(ev.audit.value) else [] ]
  }

  function Extension(ev: SiemEvent): seq<Pair> {
    Flatten(EventGroups(ev)) + Flatten(RequestGroups(ev)) + Flatten(WafGroups(ev))
  }

  // ── printing ──────────────────────────────────────────────────────────────────────────────────

  function PrintedPair(p: Pair): string { p.0 + "=" + EscapeValue(p.1) }

  function PrintedParts(ps: seq<Pair>): seq<string> { seq(|ps|, i requires 0 <= i < |ps| => PrintedPair(ps[i])) }

  function PrintedPairs(ps: seq<Pair>): string { Join(PrintedParts(ps), " ") }

  /** The header as printed: only the four free-text fields are escaped. */
  function PrintedHeader(ev: SiemEvent): seq<string> {
    ["CEF:0", EscapeHeader(ev.observer.vendor), EscapeHeader(ev.observer.product),
     EscapeHeader(ev.observer.version), EscapeHeader(Clip(Signature(ev), 1023)), Name(ev),
     NatText(Severity(ev))]
  }

  function Line(ev: SiemEvent): string { Join(PrintedHeader(ev) + [PrintedPairs(Extension(ev))], "|") }

  function Printed(events: seq<SiemEvent>, printer: SiemEvent -> string): (r: seq<string>)
    ensures |r| == |events|
    decreases |events|
  {
    if events == [] then []
    else Printed(events[..|events| - 1], printer) + [printer(events[|events| - 1])]
  }

  /** One line per event. */
  function Lines(events: seq<SiemEvent>): (r: seq<string>)
    ensures |r| == |events|
  {
    Printed(events, Line)
  }

  /** Lines, each ended by a newline. */
  function Frame(lines: seq<string>): string {
    if lines == [] then "" else Frame(lines[..|lines| - 1]) + (lines[|lines| - 1] + "\n")
  }

  function Batch(events: seq<SiemEvent>): string { Frame(Lines(events)) }

  method PrintExtension(pairs: seq<Pair>) returns (ext: string)
    ensures ext == PrintedPairs(pairs)
  {
    var parts: seq<string> := [];
    for i := 0 to |pairs|
      invariant parts == PrintedParts(pairs[..i])
    {
      var value := CefValue(pairs[i].1);
      parts := parts + [pairs[i].0 + "=" + value];
    }
    assert pairs[..|pairs|] == pairs;
    return Join(parts, " ");
  }

  method CefLine(ev: SiemEvent) returns (line: string)
    ensures line == Line(ev)
  {
    var ext := PrintExtension(Extension(ev));
    var vendor := CefHeader(ev.observer.vendor);
    var product := CefHeader(ev.observer.product);
    var version := CefHeader(ev.observer.version);
    var signature := CefHeader(Clip(Signature(ev), 1023));
    var header := ["CEF:0", vendor, product, version, signature, Name(ev), NatText(Severity(ev))];
    return Join(header + [ext], "|");
  }

  method FormatBatch(events: seq<SiemEvent>) returns (out: string)
    ensures out == Batch(events)
  {
    out := "";
    for i := 0 to |events|
      invariant out == Batch(events[..i])
    {
      var line := CefLine(events[i]);
      BatchOneMore(events, i, line);
      out := out + line + "\n";
    }
    assert events[..|events|] == events;
  }

  lemma BatchOneMore(events: seq<SiemEvent>, i: nat, line: string)
    requires i < |events| && line == Line(events[i])
    ensures Batch(events[..i + 1]) == Batch(events[..i]) + line + "\n"
  {
    PrintedOneMore(events, i, Line);
    FrameOneMore(Lines(events[..i]), line);
  }

  lemma PrintedOneMore(events: seq<SiemEvent>, i: nat, printer: SiemEvent -> string)
    requires i < |events|
    ensures Printed(events[..i + 1], printer) == Printed(events[..i], printer) + [printer(events[i])]
  {
    assert events[..i + 1][..i] == events[..i];
  }

  lemma FrameOneMore(lines: seq<string>, line: string)
    ensures Frame(lines + [line]) == Frame(lines) + line + "\n"
  {
    assert (lines + [line])[..|lines|] == lines;
  }

  // ── reading ───────────────────────────────────────────────────────────────────────────────────

  datatype Parsed = Parsed(header: seq<string>, extension: seq<Pair>)

  /** One header field up to its unescaped `|`. */
  function ReadField(s: string): Option<(string, string)> {
    if s == [] then None
    else if s[0] == '|' then Some(("", s[1..]))
    else
      var skip := if s[0] == '\\' then 1 else 0;
      if |s| <= skip then None
      else match ReadField(s[skip + 1..])
           case None => None
           case Some((field, rest)) => Some(([s[skip]] + field, rest))
  }

  function ReadFields(s: string, n: nat): Option<(seq<string>, string)>
    decreases n
  {
    if n == 0 then Some(([], s))
    else match ReadField(s)
         case None => None
         case Some((field, rest)) =>
           match ReadFields(rest, n - 1)
           case None => None
           case Some((fields, ext)) => Some(([field] + fields, ext))
  }

  /** The first `=` not preceded by its escape. */
  function NextEquals(s: string): (r: Option<nat>)
    ensures r.Some? ==> r.value < |s|
  {
    if s == [] then None
    else if s[0] == '=' then Some(0)
    else
      var skip := if s[0] == '\\' && |s| > 1 then 2 else 1;
      match NextEquals(s[skip..])
      case None => None
      case Some(i) => Some(skip + i)
  }

  function LastSpace(s: string): (r: Option<nat>)
    ensures r.Some? ==> r.value < |s|
  {
    if s == [] then None else if s[|s| - 1] == ' ' then Some(|s| - 1) else LastSpace(s[..|s| - 1])
  }

  function Unescape(s: string): string {
    if s == [] then ""
    else if s[0] == '\\' && |s| > 1 then
      [if s[1] == 'n' then '\n' else if s[1] == 'r' then '\r' else s[1]] + Unescape(s[2..])
    else [s[0]] + Unescape(s[1..])
  }

  /** The escaped value in front, and what starts at the next key if there is one. */
  function TakeValue(body: string): (r: Option<(string, Option<string>)>)
    ensures r.Some? && r.value.1.Some? ==> |r.value.1.value| < |body|
  {
    match NextEquals(body)
    case None => Some((body, None))
    case Some(e) =>
      match LastSpace(body[..e])
      case None => None
      case Some(sp) => Some((body[..sp], Some(body[sp + 1..])))
  }

  /** `key=value` pairs separated by spaces, where a value runs up to the space before the next key. */
  function ReadPairs(s: string): Option<seq<Pair>>
    decreases |s|
  {
    match NextEquals(s)
    case None => None
    case Some(k) =>
      match TakeValue(s[k + 1..])
      case None => None
      case Some((raw, None)) => Some([(s[..k], Unescape(raw))])
      case Some((raw, Some(next))) =>
        match ReadPairs(next)
        case None => None
        case Some(rest) => Some([(s[..k], Unescape(raw))] + rest)
  }

  function ReadLine(line: string): Option<Parsed> {
    match ReadFields(line, 7)
    case None => None
    case Some((header, ext)) =>
      match ReadPairs(ext)
      case None => None
      case Some(pairs) => Some(Parsed(header, pairs))
  }

  /** The lines of a newline-terminated text. */
  function SplitLines(text: string, current: string): seq<string> {
    if text == [] then (if current == "" then [] else [current])
    else if text[0] == '\n' then [current] + SplitLines(text[1..], "")
    else SplitLines(text[1..], current + [text[0]])
  }

  // ── the reader undoes the printer ─────────────────────────────────────────────────────────────

  /** Text the header leaves as it is. */
  predicate PlainHeader(s: string) { forall i :: 0 <= i < |s| ==> s[i] != '|' && s[i] != '\\' && !IsControl(s[i]) }

  /** Text a key may use. */
  predicate PlainKey(s: string) {
    forall i :: 0 <= i < |s| ==> s[i] != '=' && s[i] != '\\' && s[i] != ' ' && !IsControl(s[i])
  }

  lemma ReadFieldChar(c: char, t: string)
    ensures ReadField(HeaderChar(c) + t)
            == match ReadField(t)
               case None => None
               case Some((field, rest)) => Some(([if IsControl(c) then ' ' else c] + field, rest))
  {
    assert (HeaderChar(c) + t)[|HeaderChar(c)|..] == t;
  }

  lemma {:induction false} ReadEscapedField(f: string, end: string, rest: string)
    requires end == "|" + rest
    ensures ReadField(EscapeHeader(f) + end) == Some((BlankHeader(f), rest))
    decreases |f|
  {
    if f == [] {
      assert EscapeHeader(f) + end == end && end[1..] == rest;
    } else {
      var tail := EscapeHeader(f[1..]) + end;
      ConcatAssociates(HeaderChar(f[0]), EscapeHeader(f[1..]), end);
      ReadEscapedField(f[1..], end, rest);
      ReadFieldChar(f[0], tail);
      assert BlankHeader(f) == [if IsControl(f[0]) then ' ' else f[0]] + BlankHeader(f[1..]);
    }
  }

  function BlankFields(fs: seq<string>): seq<string> { seq(|fs|, i requires 0 <= i < |fs| => BlankHeader(fs[i])) }

  function EscapedFields(fs: seq<string>): seq<string> {
    seq(|fs|, i requires 0 <= i < |fs| => EscapeHeader(fs[i]))
  }

  lemma {:induction false} ReadPrintedFields(fs: seq<string>, ext: string)
    ensures ReadFields(Join(EscapedFields(fs) + [ext], "|"), |fs|) == Some((BlankFields(fs), ext))
  {
    var parts := EscapedFields(fs) + [ext];
    if fs == [] {
      assert parts == [ext];
    } else {
      assert parts[1..] == EscapedFields(fs[1..]) + [ext];
      var rest := Join(parts[1..], "|");
      assert Join(parts, "|") == EscapeHeader(fs[0]) + ("|" + rest);
      ReadEscapedField(fs[0], "|" + rest, rest);
      ReadPrintedFields(fs[1..], ext);
      assert BlankFields(fs) == [BlankHeader(fs[0])] + BlankFields(fs[1..]);
    }
  }

  lemma {:induction false} PlainHeaderUnchanged(s: string)
    requires PlainHeader(s)
    ensures EscapeHeader(s) == s && BlankHeader(s) == s
  {
    if s != [] {
      PlainHeaderUnchanged(s[1..]);
    }
  }

  function Shift(r: Option<nat>, n: nat): Option<nat> { if r.Some? then Some(n + r.value) else None }

  lemma NextEqualsSkipsChar(c: char, t: string)
    ensures NextEquals(ValueChar(c) + t) == Shift(NextEquals(t), |ValueChar(c)|)
  {
    assert (ValueChar(c) + t)[|ValueChar(c)|..] == t;
  }

  lemma {:induction false} NextEqualsSkipsValue(v: string, t: string)
    ensures NextEquals(EscapeValue(v) + t) == Shift(NextEquals(t), |EscapeValue(v)|)
  {
    if v == [] {
      assert EscapeValue(v) + t == t;
    } else {
      var head, tail := ValueChar(v[0]), EscapeValue(v[1..]);
      assert EscapeValue(v) == head + tail;
      ConcatAssociates(head, tail, t);
      NextEqualsSkipsChar(v[0], tail + t);
      NextEqualsSkipsValue(v[1..], t);
    }
  }

  lemma ConcatAssociates(a: string, b: string, c: string)
    ensures a + b + c == a + (b + c)
  {}

  lemma {:induction false} NextEqualsAfterKey(k: string, t: string)
    requires PlainKey(k)
    ensures NextEquals(k + ("=" + t)) == Some(|k|)
  {
    if k == [] {
      assert k + ("=" + t) == "=" + t;
    } else {
      NextEqualsAfterKey(k[1..], t);
      assert (k + ("=" + t))[1..] == k[1..] + ("=" + t);
    }
  }

  lemma {:induction false} LastSpaceBeforeKey(x: string, k: string)
    requires PlainKey(k)
    ensures LastSpace(x + (" " + k)) == Some(|x|)
  {
    var s := x + (" " + k);
    if k == [] {
      assert s[|s| - 1] == ' ';
    } else {
      assert s[|s| - 1] == k[|k| - 1];
      LastSpaceBeforeKey(x, k[..|k| - 1]);
      assert s[..|s| - 1] == x + (" " + k[..|k| - 1]);
    }
  }

  lemma UnescapeChar(c: char, t: string)
    ensures Unescape(ValueChar(c) + t) == [if IsControl(c) && c != '\n' && c != '\r' then ' ' else c] + Unescape(t)
  {
    assert (ValueChar(c) + t)[|ValueChar(c)|..] == t;
  }

  lemma {:induction false} UnescapeEscaped(v: string)
    ensures Unescape(EscapeValue(v)) == BlankValue(v)
  {
    if v != [] {
      UnescapeEscaped(v[1..]);
      UnescapeChar(v[0], EscapeValue(v[1..]));
    }
  }

  function BlankPairs(ps: seq<Pair>): seq<Pair> {
    seq(|ps|, i requires 0 <= i < |ps| => (ps[i].0, BlankValue(ps[i].1)))
  }

  lemma KeySplits(s: string, k: string, body: string)
    requires PlainKey(k) && s == k + ("=" + body)
    ensures NextEquals(s) == Some(|k|) && s[..|k|] == k && s[|k| + 1..] == body
  {
    NextEqualsAfterKey(k, body);
  }

  lemma BodySlices(body: string, raw: string, next: string, t: string, rest: string)
    requires t == next + ("=" + rest) && body == raw + (" " + t)
    ensures body[..|raw| + 1 + |next|] == raw + (" " + next) && body[..|raw|] == raw && body[|raw| + 1..] == t
  {}

  lemma NextEqualsAfterSpace(t: string)
    ensures NextEquals(" " + t) == Shift(NextEquals(t), 1)
  {
    assert (" " + t)[1..] == t;
  }

  /** A value ends at the space before the next key. */
  lemma ValueSplits(body: string, v: string, raw: string, next: string, t: string, rest: string, e: nat)
    requires PlainKey(next) && raw == EscapeValue(v) && t == next + ("=" + rest) && body == raw + (" " + t)
    requires e == |raw| + 1 + |next|
    ensures TakeValue(body) == Some((raw, Some(t)))
  {
    assert NextEquals(body) == Some(e) by {
      NextEqualsSkipsValue(v, " " + t);
      NextEqualsAfterSpace(t);
      NextEqualsAfterKey(next, rest);
    }
    BodySlices(body, raw, next, t, rest);
    LastSpaceBeforeKey(raw, next);
  }

  /** One step of the pair reader. */
  lemma ReadPairsStep(s: string, key: string, body: string, raw: string, t: string)
    requires NextEquals(s) == Some(|key|) && s[..|key|] == key && s[|key| + 1..] == body
    requires TakeValue(body) == Some((raw, Some(t))) && ReadPairs(t).Some?
    ensures ReadPairs(s) == Some([(key, Unescape(raw))] + ReadPairs(t).value)
  {}

  /** A key, its value, and whatever starts at the next key. */
  lemma ReadFirstPair(s: string, p: Pair, body: string, next: string, t: string, rest: string, tail: seq<Pair>)
    requires PlainKey(p.0) && PlainKey(next) && ReadPairs(t) == Some(tail)
    requires t == next + ("=" + rest) && body == EscapeValue(p.1) + (" " + t) && s == p.0 + ("=" + body)
    ensures ReadPairs(s) == Some([(p.0, BlankValue(p.1))] + tail)
  {
    var raw := EscapeValue(p.1);
    var e := |raw| + 1 + |next|;
    KeySplits(s, p.0, body);
    ValueSplits(body, p.1, raw, next, t, rest, e);
    ReadPairsStep(s, p.0, body, raw, t);
    UnescapeEscaped(p.1);
  }

  lemma ReadLastPair(s: string, p: Pair)
    requires PlainKey(p.0) && s == p.0 + ("=" + EscapeValue(p.1))
    ensures ReadPairs(s) == Some([(p.0, BlankValue(p.1))])
  {
    var raw := EscapeValue(p.1);
    KeySplits(s, p.0, raw);
    NextEqualsSkipsValue(p.1, "");
    assert raw + "" == raw;
    UnescapeEscaped(p.1);
  }

  /** How the printed text of two or more pairs starts. */
  lemma PrintedPairsStep(ps: seq<Pair>)
    requires |ps| > 1
    ensures PrintedPairs(ps) == ps[0].0 + ("=" + (EscapeValue(ps[0].1) + (" " + PrintedPairs(ps[1..]))))
    ensures BlankPairs(ps) == [(ps[0].0, BlankValue(ps[0].1))] + BlankPairs(ps[1..])
  {
    assert PrintedParts(ps)[1..] == PrintedParts(ps[1..]);
  }

  lemma PrintedPairsLast(ps: seq<Pair>)
    requires |ps| == 1
    ensures PrintedPairs(ps) == ps[0].0 + ("=" + EscapeValue(ps[0].1))
    ensures BlankPairs(ps) == [(ps[0].0, BlankValue(ps[0].1))]
  {}

  lemma {:induction false} ReadPrintedPairs(ps: seq<Pair>) returns (rest: string)
    requires ps != [] && forall i :: 0 <= i < |ps| ==> PlainKey(ps[i].0)
    ensures ReadPairs(PrintedPairs(ps)) == Some(BlankPairs(ps))
    ensures PrintedPairs(ps) == ps[0].0 + ("=" + rest)
  {
    if |ps| == 1 {
      PrintedPairsLast(ps);
      rest := EscapeValue(ps[0].1);
      ReadLastPair(PrintedPairs(ps), ps[0]);
    } else {
      PrintedPairsStep(ps);
      var next := ReadPrintedPairs(ps[1..]);
      rest := EscapeValue(ps[0].1) + (" " + PrintedPairs(ps[1..]));
      ReadFirstPair(PrintedPairs(ps), ps[0], rest, ps[1].0, PrintedPairs(ps[1..]), next, BlankPairs(ps[1..]));
    }
  }

  // ── whole batches ─────────────────────────────────────────────────────────────────────────────

  predicate PlainKeys(ps: seq<Pair>) { forall i :: 0 <= i < |ps| ==> PlainKey(ps[i].0) }

  lemma {:induction false} FlattenKeys(groups: seq<seq<Pair>>)
    requires forall i :: 0 <= i < |groups| ==> PlainKeys(groups[i])
    ensures PlainKeys(Flatten(groups))
  {
    if groups != [] {
      FlattenKeys(groups[1..]);
    }
  }

  lemma EventKeysPlain(ev: SiemEvent)
    ensures PlainKeys(Flatten(EventGroups(ev))) && Flatten(EventGroups(ev)) != []
  {
    assert PlainKey("externalId") && PlainKey("rt") && PlainKey("act") && PlainKey("cat");
    assert PlainKey("outcome") && PlainKey("src");
    FlattenKeys(EventGroups(ev));
  }

  lemma RequestKeysPlain(ev: SiemEvent)
    ensures PlainKeys(Flatten(RequestGroups(ev)))
  {
    assert PlainKey("requestMethod") && PlainKey("request") && PlainKey("suser") && PlainKey("msg")
        && PlainKey("dvchost");
    FlattenKeys(RequestGroups(ev));
  }

  lemma CustomKeysArePlain()
    ensures PlainKey("cn1") && PlainKey("cn1Label") && PlainKey("cn2") && PlainKey("cn2Label")
    ensures PlainKey("cs1") && PlainKey("cs1Label") && PlainKey("cs2") && PlainKey("cs2Label")
    ensures PlainKey("cs3") && PlainKey("cs3Label")
  {}

  lemma CustomPairsPlain(ev: SiemEvent)
    ensures PlainKeys(ScorePairs(ev))
    ensures ev.alert.Some? ==> PlainKeys(AlertPairs(ev.alert.value))
    ensures ev.audit.Some? ==> PlainKeys(AuditPairs(ev.audit.value))
  {
    CustomKeysArePlain();
  }

  lemma ExtensionKeysPlain(ev: SiemEvent)
    ensures PlainKeys(Extension(ev)) && Extension(ev) != []
  {
    EventKeysPlain(ev);
    RequestKeysPlain(ev);
    CustomPairsPlain(ev);
    FlattenKeys(WafGroups(ev));
  }

  lemma {:induction false} NatTextPlain(n: nat)
    ensures PlainHeader(NatText(n))
  {
    if n >= 10 {
      NatTextPlain(n / 10);
    }
  }

  lemma NamePlain(ev: SiemEvent)
    ensures PlainHeader(Name(ev))
  {
    if ev.alert.Some? {
      assert PlainHeader("Alert fired");
    } else if ev.audit.Some? {
      assert PlainHeader("Audit event");
    } else {
      RequestNamesPlain();
    }
  }

  lemma RequestNamesPlain()
    ensures PlainHeader("Request blocked") && PlainHeader("Request rejected") && PlainHeader("Request denied")
  {}

  lemma VersionUnchanged()
    ensures EscapeHeader("CEF:0") == "CEF:0"
  {
    PlainHeaderUnchanged("CEF:0");
  }

  lemma NameUnchanged(ev: SiemEvent)
    ensures EscapeHeader(Name(ev)) == Name(ev)
  {
    NamePlain(ev);
    PlainHeaderUnchanged(Name(ev));
  }

  lemma SeverityUnchanged(n: nat)
    ensures EscapeHeader(NatText(n)) == NatText(n)
  {
    NatTextPlain(n);
    PlainHeaderUnchanged(NatText(n));
  }

  lemma SevenEscaped(a: string, b: string, c: string, d: string, e: string, f: string, g: string)
    requires EscapeHeader(a) == a && EscapeHeader(f) == f && EscapeHeader(g) == g
    ensures EscapedFields([a, b, c, d, e, f, g])
            == [a, EscapeHeader(b), EscapeHeader(c), EscapeHeader(d), EscapeHeader(e), f, g]
  {}

  /** Escaping the three fixed header fields would change nothing, so all seven may be read alike. */
  lemma PrintedHeaderIsEscaped(ev: SiemEvent)
    ensures PrintedHeader(ev) == EscapedFields(HeaderFields(ev)) && |HeaderFields(ev)| == 7
  {
    VersionUnchanged();
    NameUnchanged(ev);
    SeverityUnchanged(Severity(ev));
    SevenEscaped("CEF:0", ev.observer.vendor, ev.observer.product, ev.observer.version,
                 Clip(Signature(ev), 1023), Name(ev), NatText(Severity(ev)));
  }

  /** A line reads back as every header field and every pair, control characters blanked. */
  lemma LineReadsBack(ev: SiemEvent)
    ensures ReadLine(Line(ev)) == Some(Parsed(BlankFields(HeaderFields(ev)), BlankPairs(Extension(ev))))
  {
    PrintedHeaderIsEscaped(ev);
    ReadPrintedFields(HeaderFields(ev), PrintedPairs(Extension(ev)));
    ExtensionKeysPlain(ev);
    var rest := ReadPrintedPairs(Extension(ev));
  }

  // ── one line per event ────────────────────────────────────────────────────────────────────────

  /** No character below U+0020 and none from U+007F to U+009F, so no line break either. */
  predicate OneLine(s: string) {
    forall i :: 0 <= i < |s| ==> 0x20 <= s[i] as int && !(0x7F <= s[i] as int <= 0x9F)
  }

  lemma {:induction false} EscapedHeaderOneLine(s: string)
    ensures OneLine(EscapeHeader(s))
  {
    if s != [] {
      EscapedHeaderOneLine(s[1..]);
    }
  }

  lemma {:induction false} EscapedValueOneLine(s: string)
    ensures OneLine(EscapeValue(s))
  {
    if s != [] {
      EscapedValueOneLine(s[1..]);
    }
  }

  lemma {:induction false} JoinOneLine(parts: seq<string>, sep: string)
    requires OneLine(sep) && forall i :: 0 <= i < |parts| ==> OneLine(parts[i])
    ensures OneLine(Join(parts, sep))
  {
    if |parts| > 1 {
      JoinOneLine(parts[1..], sep);
    }
  }

  lemma PairsOneLine(pairs: seq<Pair>)
    requires forall i :: 0 <= i < |pairs| ==> PlainKey(pairs[i].0)
    ensures OneLine(PrintedPairs(pairs))
  {
    forall i | 0 <= i < |pairs| ensures OneLine(PrintedParts(pairs)[i]) {
      EscapedValueOneLine(pairs[i].1);
    }
    JoinOneLine(PrintedParts(pairs), " ");
  }

  lemma FieldsOneLine(fields: seq<string>, ext: string)
    requires OneLine(ext)
    ensures OneLine(Join(EscapedFields(fields) + [ext], "|"))
  {
    forall i | 0 <= i < |fields| ensures OneLine(EscapedFields(fields)[i]) {
      EscapedHeaderOneLine(fields[i]);
    }
    JoinOneLine(EscapedFields(fields) + [ext], "|");
  }

  /** No field can break the line or put a control character in it. */
  lemma LineIsOneLine(ev: SiemEvent)
    ensures OneLine(Line(ev))
  {
    PrintedHeaderIsEscaped(ev);
    ExtensionKeysPlain(ev);
    PairsOneLine(Extension(ev));
    FieldsOneLine(HeaderFields(ev), PrintedPairs(Extension(ev)));
  }

  lemma {:induction false} SplitOneLine(line: string, rest: string, current: string)
    requires OneLine(line)
    ensures SplitLines(line + ("\n" + rest), current) == [current + line] + SplitLines(rest, "")
    decreases |line|
  {
    var text := line + ("\n" + rest);
    if line == [] {
      assert text == "\n" + rest && text[1..] == rest && current + line == current;
    } else {
      SplitOneLine(line[1..], rest, current + [line[0]]);
      assert text[1..] == line[1..] + ("\n" + rest);
      assert current + [line[0]] + line[1..] == current + line;
    }
  }

  lemma {:induction false} SplitFrameThen(lines: seq<string>, rest: string)
    requires forall i :: 0 <= i < |lines| ==> OneLine(lines[i])
    ensures SplitLines(Frame(lines) + rest, "") == lines + SplitLines(rest, "")
    decreases |lines|
  {
    if lines == [] {
      assert Frame(lines) + rest == rest;
    } else {
      var init, line := lines[..|lines| - 1], lines[|lines| - 1];
      SplitOneLine(line, rest, "");
      assert "" + line == line;
      ConcatAssociates(Frame(init), line + "\n", rest);
      ConcatAssociates(line, "\n", rest);
      SplitFrameThen(init, line + ("\n" + rest));
      assert lines == init + [line];
    }
  }

  lemma {:induction false} LinesAreOneLine(events: seq<SiemEvent>)
    ensures forall i :: 0 <= i < |events| ==> OneLine(Lines(events)[i])
    decreases |events|
  {
    if events != [] {
      LinesAreOneLine(events[..|events| - 1]);
      LineIsOneLine(events[|events| - 1]);
      assert Lines(events) == Lines(events[..|events| - 1]) + [Line(events[|events| - 1])];
    }
  }

  function ReadLines(lines: seq<string>): seq<Option<Parsed>> {
    if lines == [] then [] else ReadLines(lines[..|lines| - 1]) + [ReadLine(lines[|lines| - 1])]
  }

  function Readings(events: seq<SiemEvent>): seq<Option<Parsed>> {
    if events == [] then []
    else
      var ev := events[|events| - 1];
      Readings(events[..|events| - 1]) + [Some(Parsed(BlankFields(HeaderFields(ev)), BlankPairs(Extension(ev))))]
  }

  lemma {:induction false} LinesReadBack(events: seq<SiemEvent>)
    ensures ReadLines(Lines(events)) == Readings(events)
    decreases |events|
  {
    if events != [] {
      LinesReadBack(events[..|events| - 1]);
      LineReadsBack(events[|events| - 1]);
      assert Lines(events)[..|Lines(events)| - 1] == Lines(events[..|events| - 1]);
    }
  }

  /** The batch splits into one line per event, and every line reads back as its event. */
  lemma BatchReadsBack(events: seq<SiemEvent>)
    ensures SplitLines(Batch(events), "") == Lines(events) && |Lines(events)| == |events|
    ensures ReadLines(SplitLines(Batch(events), "")) == Readings(events)
  {
    LinesAreOneLine(events);
    SplitFrameThen(Lines(events), "");
    assert Batch(events) + "" == Batch(events);
    LinesReadBack(events);
  }
}
