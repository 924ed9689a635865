/** The form behaviour of `scripts.js`: the values the text inputs take when a
    submit button is clicked, and the rule that picks the value of the AMLS
    supervisory-body select from the autocomplete menu. */
module FormInputs {
  import opened Wrappers
  import opened JsText

  // ---------------------------------------------------------------------------
  // Value normalisation
  // ---------------------------------------------------------------------------

  /** No two consecutive characters of `s` are both whitespace. */
  predicate NoDoubleSpace(s: string) {
    forall i :: 0 <= i < |s| - 1 ==> !(IsSpace(s[i]) && IsSpace(s[i + 1]))
  }

  /** Every character of `s` is left as it is by `toUpperCase`. */
  predicate Uppercased(s: string) {
    forall i :: 0 <= i < |s| ==> Upper(s[i]) == s[i]
  }

  /** The non-whitespace characters of `s`, in order. */
  function Text(s: string): (r: string)
    ensures forall i :: 0 <= i < |r| ==> !IsSpace(r[i])
  {
    if s == [] then [] else (if IsSpace(s[0]) then [] else [s[0]]) + Text(s[1..])
  }

  /** `s.replace(/\s\s+/g, ' ')`: scanning from the left, each maximal run of two
      or more whitespace characters becomes one space; a lone whitespace
      character is kept as it is. */
  function Collapse(s: string): (r: string)
    ensures |r| <= |s|
    ensures r == [] <==> s == []
    ensures s != [] ==> (IsSpace(r[0]) <==> IsSpace(s[0]))
    ensures NoDoubleSpace(r)
    ensures forall i :: 0 <= i < |r| ==> r[i] == ' ' || r[i] in s
    decreases |s|
  {
    if s == [] then []
    else if LeadingSpace(s) >= 2 then
      var k := LeadingSpace(s);
      var r := [' '] + Collapse(s[k..]);
      assert forall c :: c in s[k..] ==> c in s;
      r
    else
      var r := [s[0]] + Collapse(s[1..]);
      assert forall c :: c in s[1..] ==> c in s;
      r
  }

  /** `s` and `r` are non-empty and agree on whether they end with
      whitespace. */
  predicate EndsAlike(s: string, r: string) {
    s != [] && r != [] && (IsSpace(r[|r| - 1]) <==> IsSpace(s[|s| - 1]))
  }

  /** The collapse ends with whitespace exactly when its input does. */
  lemma {:induction false} CollapseLast(s: string)
    requires s != []
    ensures EndsAlike(s, Collapse(s))
    decreases |s|
  {
    var k := LeadingSpace(s);
    if k >= 2 {
      if k < |s| {
        CollapseLast(s[k..]);
      }
      CollapseLastOfRun(s);
    } else {
      if 1 < |s| {
        CollapseLast(s[1..]);
      }
      CollapseLastOfChar(s);
    }
  }

  /** The step of `CollapseLast` for a string that does not start with a run
      of two or more whitespace characters, given the fact for its tail. */
  lemma CollapseLastOfChar(s: string)
    requires s != [] && LeadingSpace(s) < 2
    requires 1 < |s| ==> EndsAlike(s[1..], Collapse(s[1..]))
    ensures EndsAlike(s, Collapse(s))
  {
    CollapseKeepsChar(s);
    if 1 < |s| {
      LastOfFirstThenRest(s, 1, Collapse(s), s[0], Collapse(s[1..]));
    } else {
      LastOfCharOnly(s, Collapse(s), Collapse(s[1..]));
    }
  }

  /** The step of `CollapseLast` for a string that starts with a run of two
      or more whitespace characters, given the fact for what follows it. */
  lemma CollapseLastOfRun(s: string)
    requires LeadingSpace(s) >= 2
    requires LeadingSpace(s) < |s| ==> EndsAlike(s[LeadingSpace(s)..], Collapse(s[LeadingSpace(s)..]))
    ensures EndsAlike(s, Collapse(s))
  {
    var k := LeadingSpace(s);
    CollapseSpaceRun(s);
    if k < |s| {
      LastOfFirstThenRest(s, k, Collapse(s), ' ', Collapse(s[k..]));
    } else {
      LastOfSpaceOnly(s, k, Collapse(s), Collapse(s[k..]));
    }
  }

  /** The last-character step when more of `s` follows its first `k`
      characters, which the collapse replaced by `x`. */
  lemma LastOfFirstThenRest(s: string, k: nat, r: string, x: char, c: string)
    requires k < |s| && r == [x] + c
    requires EndsAlike(s[k..], c)
    ensures EndsAlike(s, r)
  {
    LastAfterChar(r, x, c);
    assert s[k..][|s| - k - 1] == s[|s| - 1];
  }

  /** The last-character step for a one-character string. */
  lemma LastOfCharOnly(s: string, r: string, c: string)
    requires |s| == 1 && c == [] && r == [s[0]] + c
    ensures EndsAlike(s, r)
  {
  }

  /** The last-character step when the whole string is one run. */
  lemma LastOfSpaceOnly(s: string, k: nat, r: string, c: string)
    requires 0 < k == |s| && AllSpace(s[..k])
    requires c == [] && r == [' '] + c
    ensures EndsAlike(s, r)
  {
    assert s[..k][k - 1] == s[|s| - 1];
  }

  /** The last character of a character followed by a non-empty string is
      that string's last character. */
  lemma LastAfterChar(r: string, x: char, c: string)
    requires c != [] && r == [x] + c
    ensures r[|r| - 1] == c[|c| - 1]
  {
  }

  /** The collapse works run by run: around a maximal whitespace run `w`, the
      parts before and after are collapsed on their own, and `w` becomes one
      space when it has two or more characters and stays as it is when it has
      one. */
  lemma CollapseRun(p: string, w: string, q: string)
    requires p == [] || !IsSpace(p[|p| - 1])
    requires w != [] && AllSpace(w)
    requires q == [] || !IsSpace(q[0])
    ensures |w| >= 2 ==> Collapse(p + w + q) == Collapse(p) + " " + Collapse(q)
    ensures |w| == 1 ==> Collapse(p + w + q) == Collapse(p) + w + Collapse(q)
  {
    CollapseAround(p, w, q, if |w| >= 2 then " " else w);
  }

  /** `CollapseRun` with the run's replacement `m` named. */
  lemma {:induction false} CollapseAround(p: string, w: string, q: string, m: string)
    requires p == [] || !IsSpace(p[|p| - 1])
    requires w != [] && AllSpace(w)
    requires q == [] || !IsSpace(q[0])
    requires m == if |w| >= 2 then " " else w
    ensures Collapse(p + w + q) == Collapse(p) + m + Collapse(q)
    decreases |p|
  {
    if p == [] {
      CollapseAroundEmpty(p, w, q, m);
    } else {
      var n, h := if LeadingSpace(p) >= 2 then LeadingSpace(p) else 1,
                  if LeadingSpace(p) >= 2 then [' '] else [p[0]];
      StepLength(p, n);
      CollapseAround(p[n..], w, q, m);
      CollapseAroundStep(p, w, q, m, n, h);
    }
  }

  /** The base case of `CollapseAround`: the run is at the start. */
  lemma CollapseAroundEmpty(p: string, w: string, q: string, m: string)
    requires p == []
    requires w != [] && AllSpace(w)
    requires q == [] || !IsSpace(q[0])
    requires m == if |w| >= 2 then " " else w
    ensures Collapse(p + w + q) == Collapse(p) + m + Collapse(q)
  {
    CollapseRunStart(w, q, m);
    EmptyPrefix(p, w);
    EmptyPrefix(Collapse(p), m);
  }

  lemma EmptyPrefix(p: string, t: string)
    requires p == []
    ensures p + t == t
  {
  }

  lemma StepLength(p: string, n: nat)
    requires p != []
    requires n == if LeadingSpace(p) >= 2 then LeadingSpace(p) else 1
    ensures 1 <= n <= |p|
  {
  }

  /** The inductive step of `CollapseAround`: the first step of the collapse
      is the same whether or not the run and `q` follow. */
  lemma CollapseAroundStep(p: string, w: string, q: string, m: string, n: nat, h: string)
    requires p != [] && !IsSpace(p[|p| - 1])
    requires n == if LeadingSpace(p) >= 2 then LeadingSpace(p) else 1
    requires h == if LeadingSpace(p) >= 2 then [' '] else [p[0]]
    requires n <= |p| && Collapse(p[n..] + w + q) == Collapse(p[n..]) + m + Collapse(q)
    ensures Collapse(p + w + q) == Collapse(p) + m + Collapse(q)
  {
    CollapseFirstStep(p, w + q, n, h);
    ConcatAssoc(p, w, q);
    ConcatAssoc(p[n..], w, q);
    ConsAssoc(h, Collapse(p[n..]), m, Collapse(q));
  }

  /** The first step of the collapse of a string that does not end in
      whitespace, before and after something is appended to it. */
  lemma CollapseFirstStep(p: string, t: string, n: nat, h: string)
    requires p != [] && !IsSpace(p[|p| - 1])
    requires n == if LeadingSpace(p) >= 2 then LeadingSpace(p) else 1
    requires h == if LeadingSpace(p) >= 2 then [' '] else [p[0]]
    ensures n <= |p|
    ensures Collapse(p + t) == h + Collapse(p[n..] + t)
    ensures Collapse(p) == h + Collapse(p[n..])
  {
    var s := p + t;
    LeadingSpaceOfPrefix(p, t);
    assert s[n..] == p[n..] + t;
    if LeadingSpace(p) >= 2 {
      CollapseSpaceRun(s);
      CollapseSpaceRun(p);
    } else {
      assert s[0] == p[0];
      CollapseKeepsChar(s);
      CollapseKeepsChar(p);
    }
  }

  /** One step of the collapse at a leading run of two or more whitespace
      characters. */
  lemma CollapseSpaceRun(s: string)
    requires LeadingSpace(s) >= 2
    ensures Collapse(s) == [' '] + Collapse(s[LeadingSpace(s)..])
  {
  }

  /** One step of the collapse at a character that does not start a run of
      two or more whitespace characters. */
  lemma CollapseKeepsChar(s: string)
    requires s != [] && LeadingSpace(s) < 2
    ensures Collapse(s) == [s[0]] + Collapse(s[1..])
  {
  }

  lemma ConcatAssoc(a: string, b: string, c: string)
    ensures a + b + c == a + (b + c)
  {
  }

  lemma Regroup(a: string, b: string, c: string, d: string, e: string)
    ensures (a + b) + c + (d + e) == a + b + c + d + e
  {
  }

  lemma ConsAssoc(h: string, a: string, m: string, b: string)
    ensures h + (a + m + b) == (h + a) + m + b
  {
  }

  /** `CollapseRun` for a run at the start of the string. */
  lemma CollapseRunStart(w: string, q: string, m: string)
    requires w != [] && AllSpace(w)
    requires q == [] || !IsSpace(q[0])
    requires m == if |w| >= 2 then " " else w
    ensures Collapse(w + q) == m + Collapse(q)
  {
    if |w| >= 2 {
      CollapseLongRunStart(w, q);
    } else {
      CollapseLoneSpaceStart(w, q);
    }
  }

  /** A leading run of two or more whitespace characters becomes one space. */
  lemma CollapseLongRunStart(w: string, q: string)
    requires |w| >= 2 && AllSpace(w)
    requires q == [] || !IsSpace(q[0])
    ensures Collapse(w + q) == " " + Collapse(q)
  {
    LeadingSpaceOfRun(w, q);
    CollapseSpaceRun(w + q);
    assert (w + q)[|w|..] == q;
  }

  /** A lone leading whitespace character is kept. */
  lemma CollapseLoneSpaceStart(w: string, q: string)
    requires |w| == 1 && AllSpace(w)
    requires q == [] || !IsSpace(q[0])
    ensures Collapse(w + q) == w + Collapse(q)
  {
    LeadingSpaceOfRun(w, q);
    CollapseKeepsChar(w + q);
    assert (w + q)[1..] == q;
  }

  /** The value a text input holds after a submit click (scripts.js lines 14-18):
      a non-empty value of an input flagged `data-uppercase="true"` is
      upper-cased, its whitespace runs collapsed and then trimmed; every other
      value is only trimmed. */
  function Normalised(value: string, uppercase: bool): (r: string)
    ensures NoEdgeSpace(r)
    ensures uppercase ==> NoDoubleSpace(r)
  {
    if value != [] && uppercase then
      var c := Collapse(ToUpper(value));
      var r := Trim(c);
      NoDoubleSpaceSlice(c, LeadingSpace(c), LeadingSpace(c) + |r|);
      r
    else Trim(value)
  }

  lemma NoDoubleSpaceSlice(s: string, a: nat, b: nat)
    requires a <= b <= |s| && NoDoubleSpace(s)
    ensures NoDoubleSpace(s[a..b])
  {
    forall i | 0 <= i < b - a - 1
      ensures !(IsSpace(s[a..b][i]) && IsSpace(s[a..b][i + 1]))
    {
      assert s[a..b][i] == s[a + i] && s[a..b][i + 1] == s[a + i + 1];
    }
  }

  lemma {:induction false} TextConcat(a: string, b: string)
    ensures Text(a + b) == Text(a) + Text(b)
  {
    if a == [] {
      assert a + b == b;
    } else {
      assert (a + b)[1..] == a[1..] + b;
      TextConcat(a[1..], b);
    }
  }

  lemma {:induction false} TextOfSpaces(s: string)
    requires AllSpace(s)
    ensures Text(s) == []
  {
    if s != [] {
      TextOfSpaces(s[1..]);
    }
  }

  /** Collapsing whitespace runs never adds, drops or reorders a
      non-whitespace character. */
  lemma {:induction false} CollapseKeepsText(s: string)
    ensures Text(Collapse(s)) == Text(s)
    decreases |s|
  {
    if s == [] {
    } else if LeadingSpace(s) >= 2 {
      var k := LeadingSpace(s);
      CollapseKeepsText(s[k..]);
      TextConcat([' '], Collapse(s[k..]));
      assert s == s[..k] + s[k..];
      TextConcat(s[..k], s[k..]);
      TextOfSpaces(s[..k]);
    } else {
      CollapseKeepsText(s[1..]);
      TextConcat([s[0]], Collapse(s[1..]));
      assert s == [s[0]] + s[1..];
      TextConcat([s[0]], s[1..]);
    }
  }

  /** A string without two consecutive whitespace characters is left as it is
      by the collapse: in particular a single tab or newline is not turned
      into a space. */
  lemma {:induction false} CollapseKeepsSingleSpaces(s: string)
    requires NoDoubleSpace(s)
    ensures Collapse(s) == s
    decreases |s|
  {
    if s != [] {
      assert LeadingSpace(s) < 2 by {
        if |s| >= 2 && IsSpace(s[0]) {
          assert !IsSpace(s[1]);
          assert LeadingSpace(s) == 1 + LeadingSpace(s[1..]);
        }
      }
      NoDoubleSpaceSlice(s, 1, |s|);
      CollapseKeepsSingleSpaces(s[1..]);
      assert s == [s[0]] + s[1..];
    }
  }

  /** `trim` only removes whitespace. */
  lemma TrimKeepsText(s: string)
    ensures Text(Trim(s)) == Text(s)
  {
    var a := LeadingSpace(s);
    var r := Trim(s);
    assert s == s[..a] + r + s[a + |r|..];
    TextConcat(s[..a] + r, s[a + |r|..]);
    TextConcat(s[..a], r);
    TextOfSpaces(s[..a]);
    TextOfSpaces(s[a + |r|..]);
  }

  lemma ToUpperKeepsUppercased(s: string)
    requires Uppercased(s)
    ensures ToUpper(s) == s
  {
  }

  lemma ToUpperIsUppercased(s: string)
    ensures Uppercased(ToUpper(s))
  {
    var u := ToUpper(s);
    forall i | 0 <= i < |u| ensures Upper(u[i]) == u[i] {
      var c := u[i];
      assert !('a' <= c <= 'z');
    }
  }

  lemma CollapseKeepsUppercased(s: string)
    requires Uppercased(s)
    ensures Uppercased(Collapse(s))
  {
    var c := Collapse(s);
    forall i | 0 <= i < |c| ensures Upper(c[i]) == c[i] {
      if c[i] != ' ' {
        var j :| 0 <= j < |s| && s[j] == c[i];
      }
    }
  }

  lemma TrimKeepsUppercased(s: string)
    requires Uppercased(s)
    ensures Uppercased(Trim(s))
  {
    var r, a := Trim(s), LeadingSpace(s);
    forall i | 0 <= i < |r| ensures Upper(r[i]) == r[i] {
      assert r[i] == s[a + i];
    }
  }

  /** The upper-case branch: the result has no whitespace at its ends, no two
      consecutive whitespace characters, is left as it is by `toUpperCase`,
      and holds exactly the upper-cased non-whitespace characters of the
      value, in their order. */
  lemma UppercaseBranch(value: string)
    requires value != []
    ensures var r := Normalised(value, true);
      && NoEdgeSpace(r) && NoDoubleSpace(r) && Uppercased(r)
      && Text(r) == Text(ToUpper(value))
  {
    var u := ToUpper(value);
    var c := Collapse(u);
    CollapseKeepsText(u);
    TrimKeepsText(c);
    ToUpperIsUppercased(value);
    CollapseKeepsUppercased(u);
    TrimKeepsUppercased(c);
  }

  /** The upper-case branch works run by run: between two pieces of text, a
      run of two or more whitespace characters becomes one space and a lone
      whitespace character is kept as it is, and each piece is normalised on
      its own: "sw1a  1aa" becomes "SW1A 1AA", and "a\tb" becomes "A\tB". */
  lemma UppercaseRun(p: string, w: string, q: string)
    requires p != [] && !IsSpace(p[|p| - 1])
    requires w != [] && AllSpace(w)
    requires q != [] && !IsSpace(q[0])
    ensures |w| >= 2 ==> Normalised(p + w + q, true) == Normalised(p, true) + " " + Normalised(q, true)
    ensures |w| == 1 ==> Normalised(p + w + q, true) == Normalised(p, true) + w + Normalised(q, true)
  {
    NormalisedAround(p, w, q, if |w| >= 2 then " " else w);
  }

  lemma NormalisedAround(p: string, w: string, q: string, m: string)
    requires p != [] && !IsSpace(p[|p| - 1])
    requires w != [] && AllSpace(w)
    requires q != [] && !IsSpace(q[0])
    requires m == if |w| >= 2 then " " else w
    ensures Normalised(p + w + q, true) == Normalised(p, true) + m + Normalised(q, true)
  {
    UpperCollapseAround(p, w, q, m);
    var a, b := Collapse(ToUpper(p)), Collapse(ToUpper(q));
    TrimAroundText(a, m, b);
    FlaggedValue(p + w + q);
    FlaggedValue(p);
    FlaggedValue(q);
  }

  /** Upper-casing and collapsing a value cut around a whitespace run. */
  lemma UpperCollapseAround(p: string, w: string, q: string, m: string)
    requires p != [] && !IsSpace(p[|p| - 1])
    requires w != [] && AllSpace(w)
    requires q != [] && !IsSpace(q[0])
    requires m == if |w| >= 2 then " " else w
    ensures var a, b := Collapse(ToUpper(p)), Collapse(ToUpper(q));
      && Collapse(ToUpper(p + w + q)) == a + m + b
      && a != [] && !IsSpace(a[|a| - 1]) && b != [] && !IsSpace(b[0])
  {
    ToUpperAround(p, w, q);
    CollapseAround(ToUpper(p), w, ToUpper(q), m);
    CollapseLast(ToUpper(p));
  }

  /** `trim` of text ending in a non-space, a middle part, and text starting
      with a non-space, trims the two outer parts only. */
  lemma TrimAroundText(a: string, m: string, b: string)
    requires a != [] && !IsSpace(a[|a| - 1]) && b != [] && !IsSpace(b[0])
    ensures Trim(a + m + b) == Trim(a) + m + Trim(b)
  {
    TrimOfTextEnd(a);
    TrimOfTextStart(b);
    var ta, tb := Trim(a), Trim(b);
    var pre, post := a[..LeadingSpace(a)], b[|tb|..];
    assert a == pre + ta;
    Regroup(pre, ta, m, tb, post);
    TrimAround(pre, ta, m, tb, post);
  }

  /** A non-empty flagged value is upper-cased, collapsed and trimmed. */
  lemma FlaggedValue(value: string)
    requires value != []
    ensures Normalised(value, true) == Trim(Collapse(ToUpper(value)))
  {
  }

  /** Upper-casing a string cut around a whitespace run upper-cases each part
      and keeps the run. */
  lemma ToUpperAround(p: string, w: string, q: string)
    requires AllSpace(w)
    ensures ToUpper(p + w + q) == ToUpper(p) + w + ToUpper(q)
    ensures p != [] ==> (IsSpace(ToUpper(p)[|p| - 1]) <==> IsSpace(p[|p| - 1]))
    ensures q != [] ==> (IsSpace(ToUpper(q)[0]) <==> IsSpace(q[0]))
  {
    ToUpperConcat(p + w, q);
    ToUpperConcat(p, w);
    ToUpperKeepsSpaces(w);
  }

  /** `trim` of a collapsed value cut around one run: the text in between is
      kept, run included. */
  lemma TrimAround(pre: string, ta: string, m: string, tb: string, post: string)
    requires AllSpace(pre) && AllSpace(post)
    requires ta != [] && NoEdgeSpace(ta) && tb != [] && NoEdgeSpace(tb)
    ensures Trim(pre + ta + m + tb + post) == ta + m + tb
  {
    ConcatAssoc(pre, ta, m);
    assert pre + ta + m + tb + post == pre + (ta + m + tb) + post;
    TrimUnique(pre, ta + m + tb, post);
  }

  /** An input that is not flagged, or whose value is empty, keeps its value
      with only the leading and trailing whitespace removed. */
  lemma PlainBranch(value: string, uppercase: bool)
    requires !uppercase || value == []
    ensures var r := Normalised(value, uppercase);
      var a := LeadingSpace(value);
      && a + |r| <= |value|
      && value == value[..a] + r + value[a + |r|..]
      && AllSpace(value[..a]) && AllSpace(value[a + |r|..])
      && NoEdgeSpace(r)
  {
    var r := Normalised(value, uppercase);
    var a := LeadingSpace(value);
    assert value == value[..a] + value[a..a + |r|] + value[a + |r|..];
  }

  /** A flagged value that already has no whitespace at its ends and no double
      whitespace is only upper-cased: its single whitespace characters, tabs
      included, are kept. */
  lemma SingleSpacesKept(value: string)
    requires value != [] && NoEdgeSpace(value) && NoDoubleSpace(value)
    ensures Normalised(value, true) == ToUpper(value)
  {
    var u := ToUpper(value);
    assert NoDoubleSpace(u) by {
      forall i | 0 <= i < |u| - 1 ensures !(IsSpace(u[i]) && IsSpace(u[i + 1])) {
        assert !(IsSpace(value[i]) && IsSpace(value[i + 1]));
      }
    }
    CollapseKeepsSingleSpaces(u);
    TrimKeepsTrimmed(u);
  }

  /** Normalising a normalised value changes nothing. */
  lemma NormalisedIdempotent(value: string, uppercase: bool)
    ensures Normalised(Normalised(value, uppercase), uppercase) == Normalised(value, uppercase)
  {
    var r := Normalised(value, uppercase);
    if r != [] && uppercase {
      assert value != [];
      UppercaseBranch(value);
      ToUpperKeepsUppercased(r);
      CollapseKeepsSingleSpaces(r);
      TrimKeepsTrimmed(r);
    } else {
      TrimKeepsTrimmed(r);
    }
  }

  // ---------------------------------------------------------------------------
  // The submit handler
  // ---------------------------------------------------------------------------

  /** An `input` element: whether it matches `input:text`, its value and its
      `data-uppercase` attribute (`None` when absent). */
  datatype Input = Input(isText: bool, value: string, dataUppercase: Option<string>)
  {
    /** `$(this).attr('data-uppercase') === 'true'`. */
    predicate Flagged() {
      dataUppercase == Some("true")
    }
  }

  /** The input after one submit click: text inputs get their normalised value,
      every other input and every attribute is untouched. */
  function Submitted(f: Input): (g: Input)
    ensures g.isText == f.isText && g.dataUppercase == f.dataUppercase
    ensures !f.isText ==> g == f
    ensures f.isText ==> NoEdgeSpace(g.value)
    ensures f.isText && f.Flagged() ==> NoDoubleSpace(g.value)
  {
    if f.isText then f.(value := Normalised(f.value, f.Flagged())) else f
  }

  /** A second submit click leaves every input as the first left it. */
  lemma SubmittedIdempotent(f: Input)
    ensures Submitted(Submitted(f)) == Submitted(f)
  {
    if f.isText {
      NormalisedIdempotent(f.value, f.Flagged());
    }
  }

  /** The click handler on the submit buttons (scripts.js lines 12-20): every
      `input:text` of the page, collected once when the page loads, gets its
      normalised value, in document order. */
  method SubmitClick(inputs: array<Input>)
    modifies inputs
    ensures forall i :: 0 <= i < inputs.Length ==> inputs[i] == Submitted(old(inputs[i]))
  {
    ghost var before := inputs[..];
    for i := 0 to inputs.Length
      invariant forall k :: 0 <= k < i ==> inputs[k] == Submitted(before[k])
      invariant inputs[i..] == before[i..]
    {
      assert inputs[i] == before[i];
      inputs[i] := Submitted(inputs[i]);
    }
  }

  // ---------------------------------------------------------------------------
  // The AMLS autocomplete handler
  // ---------------------------------------------------------------------------

  /** The text the autocomplete menu shows when nothing matches. */
  const NoResults := "No results found"

  /** What the change handler does to the select, given the menu-item texts. */
  datatype AmlsAction = MarkNotFound | ClearSelection | KeepSelection

  /** The handler's decision (scripts.js lines 51-57): `array == "..."` compares
      the comma-joined menu texts with the string, which amounts to: the menu
      shows exactly the one item "No results found", or the menu is empty or
      holds one empty item. */
  function AmlsDecision(menuTexts: seq<string>): (r: AmlsAction)
    ensures r == MarkNotFound <==> menuTexts == [NoResults]
    ensures r == ClearSelection <==> menuTexts == [] || menuTexts == [""]
    ensures r == KeepSelection <==> menuTexts != [NoResults] && menuTexts != [] && menuTexts != [""]
  {
    var joined := Join(menuTexts, ",");
    // With two or more items, the joined text has a comma where the first one
    // ends, and "No results found" has none.
    assert |menuTexts| >= 2 ==> joined[|menuTexts[0]|] == ',';
    assert forall i :: 0 <= i < |NoResults| ==> NoResults[i] != ',';
    if joined == NoResults then MarkNotFound
    else if joined == "" then ClearSelection
    else KeepSelection
  }

  /** An `<option>` of a select: its `id` attribute, value and text. */
  datatype SelectOption = SelectOption(id: Option<string>, value: string, text: string)

  /** The option the handler appends when nothing matches. */
  const NotFoundOption := SelectOption(Some("notFound"), "NOTFOUND", NoResults)

  /** The value a single select takes after `.val(v)`: `v` when one of its
      options has that value, and no selection otherwise. */
  function SelectVal(options: seq<SelectOption>, v: string): (r: Option<string>)
    ensures r == Some(v) <==> exists o :: o in options && o.value == v
    ensures r.Some? ==> r == Some(v)
  {
    if exists o :: o in options && o.value == v then Some(v) else None
  }

  /** The `#amls-auto-complete-select` element. */
  class AmlsSelect {
    var options: seq<SelectOption>
    /** The value of the selected option; `None` when no option is selected. */
    var selected: Option<string>

    constructor (options: seq<SelectOption>, selected: Option<string>)
      ensures this.options == options && this.selected == selected
    {
      this.options := options;
      this.selected := selected;
    }

    /** The change handler of `#amls-auto-complete` (scripts.js lines 43-59):
        collect the texts of the menu items, then mark "not found", clear the
        selection, or leave the select alone. */
    method OnChange(menuTexts: seq<string>)
      modifies this
      ensures menuTexts == [NoResults] ==>
        options == old(options) + [NotFoundOption] && selected == Some("NOTFOUND")
      ensures menuTexts == [] || menuTexts == [""] ==>
        options == old(options) && selected == SelectVal(old(options), "")
      ensures menuTexts != [NoResults] && menuTexts != [] && menuTexts != [""] ==>
        options == old(options) && selected == old(selected)
    {
      var items: seq<string> := [];
      for i := 0 to |menuTexts|
        invariant items == menuTexts[..i]
      {
        items := items + [menuTexts[i]];
      }
      assert items == menuTexts;
      var action := AmlsDecision(items);
      if action == MarkNotFound {
        options := options + [NotFoundOption];
        selected := SelectVal(options, "NOTFOUND");
        assert NotFoundOption in options;
      } else if action == ClearSelection {
        selected := SelectVal(options, "");
      }
    }
  }
}
