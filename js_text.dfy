/** The JavaScript built-ins the page scripts rely on, over `string` (`seq<char>`):
    the whitespace class shared by `\s` and `String.prototype.trim`, `trim`,
    `toUpperCase`, `indexOf`, `substring` and `Array.prototype.join`. */
module JsText {

  /** The characters matched by the regular-expression class `\s` and removed by
      `trim`: ECMAScript's WhiteSpace and LineTerminator productions. */
  predicate IsSpace(c: char): (b: bool)
    ensures c as int < 0x80 ==> (b <==> c == ' ' || '\t' <= c <= '\r')
    ensures b ==> c != ',' && !('a' <= c <= 'z') && !('A' <= c <= 'Z') && !('0' <= c <= '9')
  {
    || c == '\t' || c == '\n' || c == '\U{000B}' || c == '\U{000C}' || c == '\r' || c == ' '
    || c == '\U{00A0}' || c == '\U{1680}' || ('\U{2000}' <= c <= '\U{200A}')
    || c == '\U{2028}' || c == '\U{2029}' || c == '\U{202F}' || c == '\U{205F}'
    || c == '\U{3000}' || c == '\U{FEFF}'
  }

  predicate AllSpace(s: string) {
    forall i :: 0 <= i < |s| ==> IsSpace(s[i])
  }

  /** Neither the first nor the last character of `s` is whitespace. */
  predicate NoEdgeSpace(s: string) {
    s == [] || (!IsSpace(s[0]) && !IsSpace(s[|s| - 1]))
  }

  /** The length of the whitespace run `s` starts with. */
  function LeadingSpace(s: string): (n: nat)
    ensures n <= |s|
    ensures AllSpace(s[..n])
    ensures n < |s| ==> !IsSpace(s[n])
  {
    if s == [] || !IsSpace(s[0]) then 0
    else
      var m := LeadingSpace(s[1..]);
      assert s[..1 + m] == [s[0]] + s[1..][..m];
      1 + m
  }

  /** The index at which the whitespace run `s` ends with begins. */
  function TrailingStart(s: string): (n: nat)
    ensures n <= |s|
    ensures AllSpace(s[n..])
    ensures n > 0 ==> !IsSpace(s[n - 1])
  {
    if s == [] || !IsSpace(s[|s| - 1]) then |s|
    else
      var m := TrailingStart(s[..|s| - 1]);
      assert s[m..] == s[..|s| - 1][m..] + [s[|s| - 1]];
      m
  }

  /** `String.prototype.trim`: the slice of `s` left once the whitespace runs at
      both ends are dropped; it neither starts nor ends with whitespace. */
  function Trim(s: string): (r: string)
    ensures NoEdgeSpace(r)
    ensures LeadingSpace(s) + |r| <= |s|
    ensures r == s[LeadingSpace(s)..LeadingSpace(s) + |r|]
    ensures AllSpace(s[..LeadingSpace(s)]) && AllSpace(s[LeadingSpace(s) + |r|..])
  {
    var a := LeadingSpace(s);
    if a == |s| then []
    else
      var b := TrailingStart(s);
      s[a..b]
  }

  /** `trim` leaves a string that already has no whitespace at its ends as it is. */
  lemma TrimKeepsTrimmed(s: string)
    requires NoEdgeSpace(s)
    ensures Trim(s) == s
  {
    if s != [] {
      assert LeadingSpace(s) == 0;
      assert TrailingStart(s) == |s|;
    }
  }

  /** A string that starts with the whitespace run `w` followed by a
      non-whitespace character has a leading run of exactly `|w|`. */
  lemma {:induction false} LeadingSpaceOfRun(w: string, q: string)
    requires AllSpace(w)
    requires q == [] || !IsSpace(q[0])
    ensures LeadingSpace(w + q) == |w|
  {
    if w == [] {
      assert w + q == q;
    } else {
      assert (w + q)[1..] == w[1..] + q;
      LeadingSpaceOfRun(w[1..], q);
    }
  }

  /** The leading run of a string that is not all whitespace is not affected
      by what follows it. */
  lemma {:induction false} LeadingSpaceOfPrefix(p: string, t: string)
    requires p != [] && !IsSpace(p[|p| - 1])
    ensures LeadingSpace(p + t) == LeadingSpace(p)
  {
    if IsSpace(p[0]) {
      assert (p + t)[1..] == p[1..] + t;
      LeadingSpaceOfPrefix(p[1..], t);
    }
  }

  /** A string that ends with the whitespace run `w` after a non-whitespace
      character has its trailing run start exactly at `|p|`. */
  lemma {:induction false} TrailingStartOfRun(p: string, w: string)
    requires p == [] || !IsSpace(p[|p| - 1])
    requires AllSpace(w)
    ensures TrailingStart(p + w) == |p|
    decreases |w|
  {
    if w == [] {
      assert p + w == p;
    } else {
      var w' := w[..|w| - 1];
      assert (p + w)[..|p + w| - 1] == p + w';
      TrailingStartOfRun(p, w');
    }
  }

  /** `trim` of a string made of whitespace, then text without whitespace at
      its ends, then whitespace, is that text. */
  lemma TrimUnique(a: string, r: string, b: string)
    requires AllSpace(a) && AllSpace(b)
    requires r != [] && NoEdgeSpace(r)
    ensures Trim(a + r + b) == r
  {
    var s := a + r + b;
    assert s == a + (r + b);
    LeadingSpaceOfRun(a, r + b);
    TrailingStartOfRun(a + r, b);
    assert s[|a|..|a| + |r|] == r;
  }

  /** `trim` of a non-empty string that ends in a non-whitespace character only
      drops its leading run. */
  lemma TrimOfTextEnd(s: string)
    requires s != [] && !IsSpace(s[|s| - 1])
    ensures LeadingSpace(s) < |s| && Trim(s) == s[LeadingSpace(s)..|s|]
  {
    LeadingSpaceBelow(s);
  }

  lemma {:induction false} LeadingSpaceBelow(s: string)
    requires s != [] && !IsSpace(s[|s| - 1])
    ensures LeadingSpace(s) < |s|
  {
    if IsSpace(s[0]) {
      LeadingSpaceBelow(s[1..]);
    }
  }

  /** `trim` of a non-empty string that starts with a non-whitespace character
      only drops its trailing run. */
  lemma TrimOfTextStart(s: string)
    requires s != [] && !IsSpace(s[0])
    ensures Trim(s) != [] && s == Trim(s) + s[|Trim(s)|..] && AllSpace(s[|Trim(s)|..])
  {
  }

  /** `toUpperCase` on one character; the model upper-cases the ASCII letters only. */
  function Upper(c: char): (u: char)
    ensures IsSpace(u) <==> IsSpace(c)
    ensures !('a' <= u <= 'z')
    ensures 'a' <= c <= 'z' ==> 'A' <= u <= 'Z' && u as int == c as int - 32
  {
    if 'a' <= c <= 'z' then (c as int - 32) as char else c
  }

  /** `String.prototype.toUpperCase`. */
  function ToUpper(s: string): (r: string)
    ensures |r| == |s|
    ensures forall i :: 0 <= i < |s| ==> r[i] == Upper(s[i])
  {
    if s == [] then [] else [Upper(s[0])] + ToUpper(s[1..])
  }

  /** `toUpperCase` works character by character, so it distributes over
      concatenation. */
  lemma ToUpperConcat(a: string, b: string)
    ensures ToUpper(a + b) == ToUpper(a) + ToUpper(b)
  {
    var l, ua, ub := ToUpper(a + b), ToUpper(a), ToUpper(b);
    forall i | 0 <= i < |l| ensures l[i] == (ua + ub)[i] {
      if i < |a| {
        calc {
          l[i];
          Upper((a + b)[i]);
          { assert (a + b)[i] == a[i]; }
          Upper(a[i]);
          ua[i];
          (ua + ub)[i];
        }
      } else {
        calc {
          l[i];
          Upper((a + b)[i]);
          { assert (a + b)[i] == b[i - |a|]; }
          Upper(b[i - |a|]);
          ub[i - |a|];
          (ua + ub)[i];
        }
      }
    }
    assert l == ua + ub;
  }

  /** `toUpperCase` leaves whitespace as it is. */
  lemma ToUpperKeepsSpaces(w: string)
    requires AllSpace(w)
    ensures ToUpper(w) == w
  {
  }

  /** `p` occurs in `s` starting at index `i`. */
  predicate OccursAt(s: string, p: string, i: int) {
    0 <= i && i + |p| <= |s| && s[i..i + |p|] == p
  }

  /** `s.indexOf(p)`: the first index at which `p` occurs in `s`, or -1 when it
      occurs nowhere. */
  function IndexOf(s: string, p: string): (k: int)
    ensures k == -1 || OccursAt(s, p, k)
    ensures forall i :: 0 <= i && (k == -1 || i < k) ==> !OccursAt(s, p, i)
  {
    IndexFrom(s, p, 0)
  }

  /** The first index at or after `from` at which `p` occurs in `s`, or -1. */
  function IndexFrom(s: string, p: string, from: nat): (k: int)
    ensures k == -1 || (from <= k && OccursAt(s, p, k))
    ensures forall i :: from <= i && (k == -1 || i < k) ==> !OccursAt(s, p, i)
    decreases |s| - from
  {
    if from + |p| > |s| then -1
    else if s[from..from + |p|] == p then from
    else IndexFrom(s, p, from + 1)
  }

  /** A `substring` argument clamped to `[0, n]`. */
  function Clamp(x: int, n: nat): (c: nat)
    ensures c <= n
    ensures 0 <= x <= n ==> c == x
    ensures x < 0 ==> c == 0
  {
    if x < 0 then 0 else if x > n then n else x
  }

  /** `s.substring(start, end)`: both arguments are clamped to `[0, |s|]` and
      swapped when the first exceeds the second. */
  function Substring(s: string, start: int, end: int): (r: string)
    ensures start == 0 && 0 <= end <= |s| ==> r == s[..end]
    ensures start == 0 && end < 0 ==> r == []
  {
    var a, b := Clamp(start, |s|), Clamp(end, |s|);
    if a <= b then s[a..b] else s[b..a]
  }

  /** `items.join(sep)`, which is also what a loose comparison `items == "..."`
      of an array with a string compares (with `sep` being ","). */
  function Join(items: seq<string>, sep: string): (r: string)
    ensures |items| >= 2 ==> OccursAt(r, sep, |items[0]|)
    ensures |items| == 1 ==> r == items[0]
    ensures items == [] ==> r == []
  {
    if items == [] then []
    else if |items| == 1 then items[0]
    else
      var r := items[0] + sep + Join(items[1..], sep);
      assert r[|items[0]|..|items[0]| + |sep|] == sep;
      r
  }
}
