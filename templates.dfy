/** Placeholder substitution of the PDF batch generator's template processor:
    every (placeholder, value) pair of the replacements mapping is applied, in
    mapping order, with Python's `str.replace` semantics. */
module Templates {

  /** Python's `s.replace("", v)`: `v` before every character and at the end. */
  function Interleave(s: string, v: string): string
  {
    if s == [] then v else v + [s[0]] + Interleave(s[1..], v)
  }

  /** `v` is inserted `|s| + 1` times. */
  lemma {:induction false} InterleaveLength(s: string, v: string)
    ensures |Interleave(s, v)| == |s| + (|s| + 1) * |v|
  {
    if s != [] {
      InterleaveLength(s[1..], v);
    }
  }

  /** Python's `s.replace(p, v)`: every non-overlapping occurrence of `p`,
      found scanning left to right, becomes `v`. */
  function Replace(s: string, p: string, v: string): string
    decreases |s|
  {
    if p == [] then Interleave(s, v)
    else if |s| < |p| then s
    else if s[..|p|] == p then v + Replace(s[|p|..], p, v)
    else [s[0]] + Replace(s[1..], p, v)
  }

  /** How many occurrences `Replace` rewrites (Python's `s.count(p)`). */
  function Count(s: string, p: string): nat
    decreases |s|
  {
    if p == [] then |s| + 1
    else if |s| < |p| then 0
    else if s[..|p|] == p then 1 + Count(s[|p|..], p)
    else Count(s[1..], p)
  }

  /** `p` occurs in `s` starting at index `i`. */
  predicate OccursAt(s: string, p: string, i: nat)
  {
    i + |p| <= |s| && s[i..i + |p|] == p
  }

  /** `p` occurs somewhere in `s`. */
  ghost predicate Occurs(s: string, p: string)
  {
    exists i: nat :: OccursAt(s, p, i)
  }

  /** An occurrence in `s[k..]` is an occurrence in `s`, `k` further on. */
  lemma OccursAtShift(s: string, p: string, k: nat, i: nat)
    requires k <= |s|
    ensures OccursAt(s[k..], p, i) <==> OccursAt(s, p, k + i)
  {
  }

  /** The length after one step: each of the `Count(s, p)` occurrences
      replaced trades `|p|` characters for `|v|`. */
  lemma {:induction false} ReplaceLength(s: string, p: string, v: string)
    ensures |Replace(s, p, v)| == |s| + Count(s, p) * (|v| - |p|)
    decreases |s|
  {
    if p == [] {
      InterleaveLength(s, v);
    } else if |s| < |p| {
    } else if s[..|p|] == p {
      var rest := s[|p|..];
      ReplaceLength(rest, p, v);
      calc {
        |Replace(s, p, v)|;
        |v| + |Replace(rest, p, v)|;
        |v| + |rest| + Count(rest, p) * (|v| - |p|);
        |s| + (1 + Count(rest, p)) * (|v| - |p|);
      }
    } else {
      ReplaceLength(s[1..], p, v);
    }
  }

  /** Replacing a placeholder by itself is the identity. */
  lemma {:induction false} ReplaceSelf(s: string, p: string)
    ensures Replace(s, p, p) == s
    decreases |s|
  {
    if p == [] {
      InterleaveEmpty(s);
    } else if |s| < |p| {
    } else if s[..|p|] == p {
      ReplaceSelf(s[|p|..], p);
      assert s == s[..|p|] + s[|p|..];
    } else {
      ReplaceSelf(s[1..], p);
      assert s == [s[0]] + s[1..];
    }
  }

  lemma {:induction false} InterleaveEmpty(s: string)
    ensures Interleave(s, []) == s
  {
    if s != [] {
      InterleaveEmpty(s[1..]);
      assert s == [s[0]] + s[1..];
    }
  }

  /** Nothing is replaced exactly when the placeholder does not occur. */
  lemma {:induction false} CountZeroIffAbsent(s: string, p: string)
    ensures Count(s, p) == 0 <==> !Occurs(s, p)
    decreases |s|
  {
    if p == [] {
      assert OccursAt(s, p, 0);
    } else if |s| < |p| {
    } else if s[..|p|] == p {
      assert OccursAt(s, p, 0);
    } else {
      CountZeroIffAbsent(s[1..], p);
      SuffixOccurs(s, p);
    }
  }

  /** When `s` does not start with `p`, `p` occurs in `s` exactly when it
      occurs in `s[1..]`. */
  lemma SuffixOccurs(s: string, p: string)
    requires s != [] && !OccursAt(s, p, 0)
    ensures Occurs(s, p) <==> Occurs(s[1..], p)
  {
    if Occurs(s, p) {
      var i: nat :| OccursAt(s, p, i);
      OccursAtShift(s, p, 1, i - 1);
    }
    if Occurs(s[1..], p) {
      var i: nat :| OccursAt(s[1..], p, i);
      OccursAtShift(s, p, 1, i);
    }
  }

  /** A placeholder that does not occur leaves the string unchanged. */
  lemma {:induction false} ReplaceAbsent(s: string, p: string, v: string)
    requires !Occurs(s, p)
    ensures Replace(s, p, v) == s
    decreases |s|
  {
    if p == [] {
      assert OccursAt(s, p, 0);
    } else if |s| < |p| {
    } else if s[..|p|] == p {
      assert OccursAt(s, p, 0);
    } else {
      SuffixOccurs(s, p);
      ReplaceAbsent(s[1..], p, v);
      assert s == [s[0]] + s[1..];
    }
  }

  /** Where `s` starts with `p`, that occurrence is replaced. */
  lemma ReplaceAtFront(s: string, p: string, v: string)
    requires p != [] && OccursAt(s, p, 0)
    ensures Replace(s, p, v) == v + Replace(s[|p|..], p, v)
  {
  }

  /** Concatenation is associative. Stated as a lemma so that the proofs
      below invoke it only on the terms they need, which keeps them well
      within the solver's resource limit. */
  lemma Associative<T>(a: seq<T>, b: seq<T>, c: seq<T>)
    ensures a + (b + c) == (a + b) + c
  {
  }

  /** Cutting `s` at `i` and dropping `k` more from the second part. A lemma
      for the same reason as `Associative`. */
  lemma Split<T>(s: seq<T>, i: nat, k: nat)
    requires i + k <= |s|
    ensures s == s[..i] + s[i..]
    ensures s[i..][k..] == s[i + k..]
  {
  }

  /** A prefix in which no occurrence of `p` starts is kept as it is, and
      the scan goes on with what follows it. */
  lemma {:induction false} ReplaceAfterPrefix(w: string, x: string, p: string, v: string)
    requires p != []
    requires forall j: nat :: j < |w| ==> !OccursAt(w + x, p, j)
    ensures Replace(w + x, p, v) == w + Replace(x, p, v)
    decreases |w|
  {
    if w == [] {
      assert w + x == x;
    } else {
      var s, t := w + x, w[1..] + x;
      assert !OccursAt(s, p, 0);
      assert s[1..] == t;
      forall j: nat | j < |w| - 1
        ensures !OccursAt(t, p, j)
      {
        OccursAtShift(s, p, 1, j);
      }
      ReplaceAfterPrefix(w[1..], x, p, v);
      if |p| <= |s| {
        assert s[..|p|] != p by {
          assert s[..|p|] == s[0..0 + |p|];
        }
      }
      assert Replace(s, p, v) == [w[0]] + Replace(t, p, v);
      Associative([w[0]], w[1..], Replace(x, p, v));
      assert [w[0]] + w[1..] == w;
    }
  }

  /** The scan is left to right and resumes after each replaced occurrence:
      when the first occurrence of `p` starts at `i`, the result is the text
      before it, then `v`, then the replacement of what follows it. */
  lemma ReplaceAtFirstOccurrence(s: string, p: string, v: string, i: nat)
    requires p != [] && OccursAt(s, p, i)
    requires forall j: nat :: j < i ==> !OccursAt(s, p, j)
    ensures Replace(s, p, v) == s[..i] + v + Replace(s[i + |p|..], p, v)
  {
    var w, x, y := s[..i], s[i..], s[i + |p|..];
    Split(s, i, |p|);
    ReplaceAfterPrefix(w, x, p, v);
    OccursAtShift(s, p, i, 0);
    ReplaceAtFront(x, p, v);
    Associative(w, v, Replace(y, p, v));
  }

  /** A prefix in which no occurrence of `p` starts adds nothing to the
      count. */
  lemma {:induction false} CountAfterPrefix(w: string, x: string, p: string)
    requires p != []
    requires forall j: nat :: j < |w| ==> !OccursAt(w + x, p, j)
    ensures Count(w + x, p) == Count(x, p)
    decreases |w|
  {
    if w == [] {
      assert w + x == x;
    } else {
      var s, t := w + x, w[1..] + x;
      assert !OccursAt(s, p, 0);
      assert s[1..] == t;
      forall j: nat | j < |w| - 1
        ensures !OccursAt(t, p, j)
      {
        OccursAtShift(s, p, 1, j);
      }
      CountAfterPrefix(w[1..], x, p);
      if |p| <= |s| {
        assert s[..|p|] != p by {
          assert s[..|p|] == s[0..0 + |p|];
        }
      }
    }
  }

  /** The occurrence counted first is the first one in the string, and
      counting resumes after it. */
  lemma CountAtFirstOccurrence(s: string, p: string, i: nat)
    requires p != [] && OccursAt(s, p, i)
    requires forall j: nat :: j < i ==> !OccursAt(s, p, j)
    ensures Count(s, p) == 1 + Count(s[i + |p|..], p)
  {
    var w, x := s[..i], s[i..];
    Split(s, i, |p|);
    CountAfterPrefix(w, x, p);
    OccursAtShift(s, p, i, 0);
    assert x[..|p|] == x[0..0 + |p|];
  }

  /** The replacements applied one after another, in mapping order, each on
      the previous one's output. */
  function ReplaceAll(s: string, pairs: seq<(string, string)>): string
    decreases |pairs|
  {
    if pairs == [] then s
    else
      var (p, v) := pairs[|pairs| - 1];
      Replace(ReplaceAll(s, pairs[..|pairs| - 1]), p, v)
  }

  /** The first pair is applied first, to the original string, and the rest
      to its output. */
  lemma {:induction false} ReplaceAllFirst(s: string, p: string, v: string, rest: seq<(string, string)>)
    ensures ReplaceAll(s, [(p, v)] + rest) == ReplaceAll(Replace(s, p, v), rest)
  {
    ReplaceAllAppend(s, [(p, v)], rest);
    assert [(p, v)][..0] == [];
  }

  /** Applying a mapping split in two is applying the first part and then
      the second part to its output. */
  lemma {:induction false} ReplaceAllAppend(s: string, a: seq<(string, string)>, b: seq<(string, string)>)
    ensures ReplaceAll(s, a + b) == ReplaceAll(ReplaceAll(s, a), b)
    decreases |b|
  {
    if b == [] {
      assert a + b == a;
    } else {
      var n := |b| - 1;
      assert (a + b)[..|a + b| - 1] == a + b[..n];
      assert (a + b)[|a + b| - 1] == b[n];
      ReplaceAllAppend(s, a, b[..n]);
    }
  }

  /** A mapping that sends every placeholder to itself changes nothing. */
  lemma {:induction false} ReplaceAllSelf(s: string, pairs: seq<(string, string)>)
    requires forall k :: 0 <= k < |pairs| ==> pairs[k].0 == pairs[k].1
    ensures ReplaceAll(s, pairs) == s
    decreases |pairs|
  {
    if pairs != [] {
      var n := |pairs| - 1;
      ReplaceAllSelf(s, pairs[..n]);
      ReplaceSelf(s, pairs[n].0);
    }
  }

  /** `TemplateProcessor.replace_placeholders`. */
  method ReplacePlaceholders(html: string, replacements: seq<(string, string)>) returns (updated: string)
    ensures updated == ReplaceAll(html, replacements)
    ensures replacements == [] ==> updated == html
  {
    updated := html;
    for i := 0 to |replacements|
      invariant updated == ReplaceAll(html, replacements[..i])
    {
      var (placeholder, value) := replacements[i];
      assert replacements[..i + 1][..i] == replacements[..i];
      updated := Replace(updated, placeholder, value);
    }
    assert replacements[..|replacements|] == replacements;
  }
}
