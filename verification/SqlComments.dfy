/** SQL block-comment collapsing of waf-detection (sqli.rs). */
module SqlComments {
  import opened Prelude

  datatype Marker = Marker(first: char, second: char)

  const OPEN := Marker('/', '*')
  const CLOSE := Marker('*', '/')

  /** The two-character marker `p` occurs in `s` at index `i`. */
  predicate At(s: string, p: Marker, i: nat) { i + 2 <= |s| && s[i] == p.first && s[i + 1] == p.second }

  /** `str::find` from index `from`: the least occurrence. */
  function Find(s: string, p: Marker, from: nat): (r: Option<nat>)
    ensures r.Some? ==> from <= r.value && r.value + 2 <= |s|
    decreases |s| - from
  {
    if from + 2 > |s| then None
    else if At(s, p, from) then Some(from)
    else Find(s, p, from + 1)
  }

  lemma {:induction false} FindIsLeast(s: string, p: Marker, from: nat)
    ensures var r := Find(s, p, from);
            && (r.Some? ==> At(s, p, r.value))
            && forall i: nat :: from <= i && (r.Some? ==> i < r.value) ==> !At(s, p, i)
    decreases |s| - from
  {
    if from + 2 <= |s| && !At(s, p, from) {
      FindIsLeast(s, p, from + 1);
    }
  }

  /** `s` holds a block comment that is both opened and closed. */
  predicate HasClosedComment(s: string) {
    exists i, j :: 0 <= i && i + 2 <= j < |s| && At(s, OPEN, i) && At(s, CLOSE, j)
  }

  /** One pass over the characters: a closed comment becomes a space, an unterminated one stays. */
  function Scan(s: string): string
    decreases |s|
  {
    if s == [] then []
    else if At(s, OPEN, 0) then
      match Find(s, CLOSE, 2)
      case None => s
      case Some(e) => " " + Scan(s[e + 2..])
    else [s[0]] + Scan(s[1..])
  }

  function Collapsed(s: string): Option<string> {
    if HasClosedComment(s) then Some(Scan(s)) else None
  }

  method CollapseSqlBlockComments(s: string) returns (r: Option<string>)
    ensures r == Collapsed(s)
  {
    var first := Find(s, OPEN, 0);
    if first.None? {
      ScanStep(s);
      return None;
    }
    var out, rest, changed := "", s, false;
    var start := first;
    while start.Some?
      invariant start == Find(rest, OPEN, 0)
      invariant Scan(s) == out + Scan(rest)
      invariant if changed then HasClosedComment(s) else rest == s
      decreases |rest|
    {
      ScanStep(rest);
      var end := Find(rest, CLOSE, start.value + 2);
      match end {
        case Some(e) =>
          Regroup(out, rest[..start.value], " ", Scan(rest[e + 2..]));
          out := out + rest[..start.value] + " ";
          rest := rest[e + 2..];
          changed := true;
          start := Find(rest, OPEN, 0);
        case None =>
          out := out + rest;
          rest := "";
          assert out + rest == out;
          break;
      }
    }
    ScanStep(rest);
    out := out + rest;
    return if changed then Some(out) else None;
  }

  lemma Regroup(a: string, b: string, c: string, d: string)
    ensures a + (b + c + d) == a + b + c + d
  {}

  // ── how the scanner moves ─────────────────────────────────────────────────────────────────────

  lemma AtShift(s: string, p: Marker, k: nat, i: nat)
    requires k <= |s|
    ensures At(s[k..], p, i) <==> At(s, p, k + i)
  {}

  predicate NoneOpenBefore(s: string, n: nat) { forall i: nat :: i < n ==> !At(s, OPEN, i) }

  lemma NoneOpenInTail(s: string, n: nat)
    requires 0 < n <= |s| && NoneOpenBefore(s, n)
    ensures NoneOpenBefore(s[1..], n - 1)
  {
    forall i: nat | i < n - 1 ensures !At(s[1..], OPEN, i) {
      AtShift(s, OPEN, 1, i);
    }
  }

  lemma ScanCopies(s: string)
    requires s != [] && !At(s, OPEN, 0)
    ensures Scan(s) == [s[0]] + Scan(s[1..])
  {}

  lemma SplitShift(s: string, n: nat, scanned: string)
    requires 0 < n <= |s|
    ensures s[1..][n - 1..] == s[n..]
    ensures [s[0]] + (s[1..][..n - 1] + scanned) == s[..n] + scanned
  {}

  /** Text with no opening is copied. */
  lemma {:induction false} ScanSkips(s: string, n: nat)
    requires n <= |s| && NoneOpenBefore(s, n)
    ensures Scan(s) == s[..n] + Scan(s[n..])
    decreases n
  {
    if n > 0 {
      NoneOpenInTail(s, n);
      ScanSkips(s[1..], n - 1);
      ScanCopies(s);
      SplitShift(s, n, Scan(s[n..]));
    } else {
      assert s[0..] == s;
    }
  }

  lemma FindShift(s: string, p: Marker, k: nat, from: nat)
    requires k <= |s|
    ensures var a, b := Find(s[k..], p, from), Find(s, p, k + from);
            if a.Some? then b == Some(k + a.value) else b.None?
  {
    var a, b := Find(s[k..], p, from), Find(s, p, k + from);
    FindIsLeast(s[k..], p, from);
    FindIsLeast(s, p, k + from);
    if a.Some? {
      AtShift(s, p, k, a.value);
    }
    if b.Some? {
      AtShift(s, p, k, b.value - k);
    }
  }

  /** At an opening the scanner jumps to the closing, or stops. */
  lemma ScanAtOpen(s: string, k: nat)
    requires At(s, OPEN, k)
    ensures var e := Find(s, CLOSE, k + 2);
            Scan(s[k..]) == if e.Some? then " " + Scan(s[e.value + 2..]) else s[k..]
  {
    AtShift(s, OPEN, k, 0);
    FindShift(s, CLOSE, k, 2);
    var e := Find(s, CLOSE, k + 2);
    if e.Some? {
      assert s[k..][e.value - k + 2..] == s[e.value + 2..];
    }
  }

  lemma ScanFromOpen(s: string, k: nat)
    requires At(s, OPEN, k) && NoneOpenBefore(s, k)
    ensures var e := Find(s, CLOSE, k + 2);
            Scan(s) == if e.Some? then s[..k] + " " + Scan(s[e.value + 2..]) else s
  {
    var e := Find(s, CLOSE, k + 2);
    ScanSkips(s, k);
    ScanAtOpen(s, k);
    if e.Some? {
      assert s[..k] + (" " + Scan(s[e.value + 2..])) == s[..k] + " " + Scan(s[e.value + 2..]);
    } else {
      assert s[..k] + s[k..] == s;
    }
  }

  lemma ClosedIff(s: string, k: nat)
    requires At(s, OPEN, k) && NoneOpenBefore(s, k)
    ensures HasClosedComment(s) <==> Find(s, CLOSE, k + 2).Some?
  {
    FindIsLeast(s, CLOSE, k + 2);
  }

  /** One turn of the loop: copy up to the first opening, then jump its comment if it is closed. */
  lemma ScanStep(s: string)
    ensures match Find(s, OPEN, 0)
            case None => Scan(s) == s && !HasClosedComment(s)
            case Some(k) =>
              match Find(s, CLOSE, k + 2)
              case None => Scan(s) == s && !HasClosedComment(s)
              case Some(e) => Scan(s) == s[..k] + " " + Scan(s[e + 2..]) && HasClosedComment(s)
  {
    var open := Find(s, OPEN, 0);
    FindIsLeast(s, OPEN, 0);
    if open.None? {
      ScanSkips(s, |s|);
      assert s[..|s|] + Scan(s[|s|..]) == s;
    } else {
      ScanFromOpen(s, open.value);
      ClosedIff(s, open.value);
    }
  }

  // ── what the result means ─────────────────────────────────────────────────────────────────────

  lemma ClosedInTail(s: string, k: nat, i: nat, j: nat)
    requires k <= i && i + 2 <= j && At(s, OPEN, i) && At(s, CLOSE, j)
    ensures HasClosedComment(s[k..])
  {
    AtShift(s, OPEN, k, i - k);
    AtShift(s, CLOSE, k, j - k);
  }

  lemma ScanHead(s: string)
    requires s != []
    ensures Scan(s) != [] && (Scan(s)[0] == s[0] || Scan(s)[0] == ' ')
  {}

  /** Nothing is left for a second pass. */
  lemma {:induction false} ScanLeavesNoClosedComment(s: string)
    ensures !HasClosedComment(Scan(s))
    decreases |s|
  {
    var out := Scan(s);
    if HasClosedComment(out) {
      var i, j :| 0 <= i && i + 2 <= j < |out| && At(out, OPEN, i) && At(out, CLOSE, j);
      if At(s, OPEN, 0) {
        var e := Find(s, CLOSE, 2);
        FindIsLeast(s, CLOSE, 2);
        if e.Some? {
          ScanLeavesNoClosedComment(s[e.value + 2..]);
          assert out[1..] == Scan(s[e.value + 2..]);
          ClosedInTail(out, 1, i, j);
        }
      } else {
        ScanLeavesNoClosedComment(s[1..]);
        assert out[1..] == Scan(s[1..]);
        if i == 0 {
          ScanHead(s[1..]);
          assert false;
        } else {
          ClosedInTail(out, 1, i, j);
        }
      }
    }
  }

  /** The scan shortens exactly the strings that hold a closed comment, and copies all others. */
  lemma {:induction false} ScanShortensIff(s: string)
    ensures if HasClosedComment(s) then |Scan(s)| < |s| else Scan(s) == s
    decreases |s|
  {
    if s == [] {
    } else if At(s, OPEN, 0) {
      var e := Find(s, CLOSE, 2);
      FindIsLeast(s, CLOSE, 2);
      if e.Some? {
        assert HasClosedComment(s);
        ScanShortensIff(s[e.value + 2..]);
      }
    } else {
      ScanShortensIff(s[1..]);
      if HasClosedComment(s) {
        var i, j :| 0 <= i && i + 2 <= j < |s| && At(s, OPEN, i) && At(s, CLOSE, j);
        ClosedInTail(s, 1, i, j);
      } else if HasClosedComment(s[1..]) {
        var i, j :| 0 <= i && i + 2 <= j < |s[1..]| && At(s[1..], OPEN, i) && At(s[1..], CLOSE, j);
        AtShift(s, OPEN, 1, i);
        AtShift(s, CLOSE, 1, j);
      }
    }
  }

  /** One pass is enough: the collapsed copy is shorter and collapsing it again yields nothing. */
  lemma CollapseOnceIsEnough(s: string)
    requires Collapsed(s).Some?
    ensures |Collapsed(s).value| < |s| && Collapsed(Collapsed(s).value).None?
  {
    ScanShortensIff(s);
    ScanLeavesNoClosedComment(s);
  }

  // ── the same, said of the text ────────────────────────────────────────────────────────────────

  predicate Occurs(s: string, w: string, i: nat) { i + |w| <= |s| && s[i..i + |w|] == w }

  predicate Contains(s: string, w: string) { exists i: nat :: i <= |s| && Occurs(s, w, i) }

  lemma OpenOccurs(s: string, i: nat)
    ensures At(s, OPEN, i) <==> Occurs(s, "/*", i)
  {
    if Occurs(s, "/*", i) {
      assert s[i..i + 2][0] == '/' && s[i..i + 2][1] == '*';
    }
  }

  lemma CloseOccurs(s: string, i: nat)
    ensures At(s, CLOSE, i) <==> Occurs(s, "*/", i)
  {
    if Occurs(s, "*/", i) {
      assert s[i..i + 2][0] == '*' && s[i..i + 2][1] == '/';
    }
  }

  /** What occurs in a part occurs in the whole, as far along as the part begins. */
  lemma OccursInPart(s: string, from: nat, to: nat, w: string, i: nat)
    requires from <= to <= |s| && i + |w| <= to - from
    ensures Occurs(s[from..to], w, i) <==> Occurs(s, w, from + i)
  {
    var a, b := s[from..to][i..i + |w|], s[from + i..from + i + |w|];
    forall k | 0 <= k < |w| ensures a[k] == b[k] {
      assert a[k] == s[from..to][i + k];
    }
    assert a == b;
  }

  /** A text with a comment in it, in four parts. */
  predicate Commented(s: string, a: string, b: string, t: string) { s == a + "/*" + b + "*/" + t }

  /** The comment is the first one: nothing opens before it, and nothing closes it earlier. */
  predicate FirstComment(s: string, a: string, b: string, t: string) {
    Commented(s, a, b, t) && !Contains(a, "/*") && !Contains(b, "*/")
  }

  /** Where the parts of a text with a comment lie. */
  lemma Parts(s: string, a: string, b: string, t: string)
    requires Commented(s, a, b, t)
    ensures var k, e := |a|, |a| + 2 + |b|;
            At(s, OPEN, k) && At(s, CLOSE, e) && s[..k] == a && s[k + 2..e] == b && s[e + 2..] == t
  {}

  lemma NoneOpenIn(s: string, a: string)
    requires a <= s && !Contains(a, "/*") && |a| < |s| && s[|a|] == '/'
    ensures NoneOpenBefore(s, |a|)
  {
    forall i: nat | i < |a| ensures !At(s, OPEN, i) {
      if At(s, OPEN, i) {
        assert i + 2 <= |a|;
        OpenOccurs(s, i);
        assert s[0..|a|] == a;
        OccursInPart(s, 0, |a|, "/*", i);
      }
    }
  }

  lemma FirstClose(s: string, from: nat, e: nat, b: string)
    requires from <= e && At(s, CLOSE, e) && b == s[from..e] && !Contains(b, "*/")
    ensures Find(s, CLOSE, from) == Some(e)
  {
    FindIsLeast(s, CLOSE, from);
    var f := Find(s, CLOSE, from).value;
    if f < e {
      assert At(s, CLOSE, f) && f + 2 <= e;
      CloseOccurs(s, f);
      OccursInPart(s, from, e, "*/", f - from);
    }
  }

  /** The copy of a text, collapsed if it collapses. */
  function Copy(s: string): string { if Collapsed(s).Some? then Collapsed(s).value else s }

  /** The first comment of a text becomes one space, what is before it stays, and the rest is collapsed alike. */
  lemma CommentBecomesSpace(s: string, a: string, b: string, t: string)
    requires FirstComment(s, a, b, t)
    ensures Collapsed(s) == Some(a + " " + Copy(t))
  {
    Parts(s, a, b, t);
    NoneOpenIn(s, a);
    FirstClose(s, |a| + 2, |a| + 2 + |b|, b);
    ScanFromOpen(s, |a|);
    ClosedIff(s, |a|);
    ScanShortensIff(t);
  }

  lemma NoOpenIn(s: string, k: nat)
    requires k <= |s| && NoneOpenBefore(s, k)
    ensures !Contains(s[..k], "/*")
  {
    assert s[0..k] == s[..k];
    if i: nat :| i <= k && Occurs(s[..k], "/*", i) {
      OccursInPart(s, 0, k, "/*", i);
      OpenOccurs(s, i);
    }
  }

  lemma NoCloseIn(s: string, from: nat, e: nat)
    requires from <= e <= |s| && forall j: nat :: from <= j < e ==> !At(s, CLOSE, j)
    ensures !Contains(s[from..e], "*/")
  {
    if i: nat :| i <= e - from && Occurs(s[from..e], "*/", i) {
      OccursInPart(s, from, e, "*/", i);
      CloseOccurs(s, from + i);
    }
  }

  lemma Reassembled(s: string, k: nat, e: nat)
    requires At(s, OPEN, k) && At(s, CLOSE, e) && k + 2 <= e
    ensures Commented(s, s[..k], s[k + 2..e], s[e + 2..])
  {}

  /** A text that collapses has a first comment. */
  lemma CollapsingHasComment(s: string) returns (a: string, b: string, t: string)
    requires Collapsed(s).Some?
    ensures FirstComment(s, a, b, t)
  {
    ScanStep(s);
    var k := Find(s, OPEN, 0).value;
    var e := Find(s, CLOSE, k + 2).value;
    FindIsLeast(s, OPEN, 0);
    FindIsLeast(s, CLOSE, k + 2);
    a, b, t := s[..k], s[k + 2..e], s[e + 2..];
    Reassembled(s, k, e);
    NoOpenIn(s, k);
    NoCloseIn(s, k + 2, e);
  }

  /** A text collapses if and only if it has a comment that is opened and closed. */
  lemma CollapsesIff(s: string)
    ensures Collapsed(s).Some? <==> exists a, b, t :: Commented(s, a, b, t)
  {
    if Collapsed(s).Some? {
      var a, b, t := CollapsingHasComment(s);
      assert Commented(s, a, b, t);
    }
    if a, b, t :| Commented(s, a, b, t) {
      Parts(s, a, b, t);
    }
  }
}
