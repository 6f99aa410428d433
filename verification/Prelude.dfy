/** Shared vocabulary: the optional value for "absent", and `to_ascii_lowercase`. */
module Prelude {
  datatype Option<+T> = None | Some(value: T)

  function LowerChar(c: char): char { if 'A' <= c <= 'Z' then c + (32 as char) else c }

  function Lower(s: string): (r: string)
    ensures |r| == |s|
  {
    if |s| == 0 then [] else [LowerChar(s[0])] + Lower(s[1..])
  }

  /** The same letter in either case, or the same character. */
  predicate SameLetter(x: char, y: char) {
    || x == y
    || ('A' <= x <= 'Z' && y as int == x as int + 32)
    || ('A' <= y <= 'Z' && x as int == y as int + 32)
  }

  /** Letter by letter the same, up to ASCII case. */
  predicate SameLetters(a: string, b: string) { |a| == |b| && forall i :: 0 <= i < |a| ==> SameLetter(a[i], b[i]) }

  lemma {:induction false} LowerAt(s: string, i: nat)
    requires i < |s|
    ensures Lower(s)[i] == LowerChar(s[i])
    decreases i
  {
    if i > 0 {
      LowerAt(s[1..], i - 1);
    }
  }

  /** Two texts lower-case alike exactly when they agree letter by letter up to ASCII case. */
  lemma SameLowerIff(a: string, b: string)
    ensures Lower(a) == Lower(b) <==> SameLetters(a, b)
  {
    forall i | 0 <= i < |a| ensures Lower(a)[i] == LowerChar(a[i]) { LowerAt(a, i); }
    forall i | 0 <= i < |b| ensures Lower(b)[i] == LowerChar(b[i]) { LowerAt(b, i); }
    forall x: char, y: char ensures LowerChar(x) == LowerChar(y) <==> SameLetter(x, y) {}
    if Lower(a) == Lower(b) {
      forall i | 0 <= i < |a| ensures SameLetter(a[i], b[i]) {
        assert Lower(a)[i] == Lower(b)[i];
      }
    }
  }
}
