/**
 * Last-name removal in infer_gender: each name is split like Python's
 * argument-less `str.split()` (runs of whitespace separate tokens, leading and
 * trailing whitespace is ignored), its final token is dropped, and the rest is
 * joined with single spaces.
 */
module Names {
  import Batcher

  /** The characters `str.split()` treats as whitespace (Python's str.isspace). */
  predicate IsSpace(c: char) {
    var x := c as int;
    (9 <= x <= 13) || (28 <= x <= 32) || x == 0x85 || x == 0xA0 || x == 0x1680
    || (0x2000 <= x <= 0x200A) || x == 0x2028 || x == 0x2029 || x == 0x202F
    || x == 0x205F || x == 0x3000
  }

  predicate NoSpace(s: string) {
    forall i :: 0 <= i < |s| ==> !IsSpace(s[i])
  }

  /** A token: a non-empty run of non-whitespace characters. */
  predicate IsToken(t: string) {
    |t| > 0 && NoSpace(t)
  }

  /** The longest prefix of s without whitespace. */
  function Word(s: string): (w: string)
    ensures |w| <= |s| && w == s[..|w|]
    ensures NoSpace(w)
    ensures |w| == |s| || IsSpace(s[|w|])
  {
    if |s| == 0 || IsSpace(s[0]) then [] else [s[0]] + Word(s[1..])
  }

  /** `s.split()`: the maximal runs of non-whitespace characters of s, in order. */
  function Split(s: string): (tokens: seq<string>)
    ensures forall i :: 0 <= i < |tokens| ==> IsToken(tokens[i])
    decreases |s|
  {
    if |s| == 0 then []
    else if IsSpace(s[0]) then Split(s[1..])
    else
      var w := Word(s);
      [w] + Split(s[|w|..])
  }

  /** `sep.join(parts)`: it starts with the first part, and joins nothing into "". */
  function Join(sep: string, parts: seq<string>): (r: string)
    ensures |parts| > 0 ==> |r| >= |parts[0]| && r[..|parts[0]|] == parts[0]
    ensures |parts| == 0 ==> r == ""
  {
    if |parts| == 0 then ""
    else if |parts| == 1 then parts[0]
    else parts[0] + sep + Join(sep, parts[1..])
  }

  /** The slice `tokens[:-1]`: everything but the last item, and nothing of an empty list. */
  function DropLast<T>(tokens: seq<T>): (r: seq<T>)
    ensures |r| == if |tokens| == 0 then 0 else |tokens| - 1
    ensures |tokens| > 0 ==> r + [tokens[|tokens| - 1]] == tokens
  {
    if |tokens| == 0 then [] else tokens[..|tokens| - 1]
  }

  /**
   * `" ".join(name.split()[:-1])` for one name: splitting the result gives
   * the name's tokens without the last, and the result is already in the
   * single-space form that splitting and joining again would produce.
   */
  function RemoveLastToken(name: string): (r: string)
    ensures Split(r) == DropLast(Split(name))
    ensures Join(" ", Split(r)) == r
  {
    var kept := DropLast(Split(name));
    assert forall i :: 0 <= i < |kept| ==> kept[i] == Split(name)[i];
    SplitJoin(kept);
    Join(" ", kept)
  }

  /** The list comprehension over all names: one output per name, in the same order. */
  function RemoveLastNames(names: seq<string>): (r: seq<string>)
    ensures |r| == |names|
    ensures forall i :: 0 <= i < |names| ==> r[i] == RemoveLastToken(names[i])
  {
    seq(|names|, i requires 0 <= i < |names| => RemoveLastToken(names[i]))
  }

  /** The characters of s that are not whitespace, in order. */
  function NonSpace(s: string): string {
    if |s| == 0 then []
    else if IsSpace(s[0]) then NonSpace(s[1..])
    else [s[0]] + NonSpace(s[1..])
  }

  lemma {:induction false} WordOfToken(t: string, u: string)
    requires NoSpace(t)
    requires |u| == 0 || IsSpace(u[0])
    ensures Word(t + u) == t
  {
    if |t| > 0 {
      assert (t + u)[1..] == t[1..] + u;
      WordOfToken(t[1..], u);
    } else {
      assert t + u == u;
    }
  }

  lemma {:induction false} NonSpaceAppend(a: string, b: string)
    ensures NonSpace(a + b) == NonSpace(a) + NonSpace(b)
  {
    if |a| == 0 {
      assert a + b == b;
    } else {
      assert (a + b)[1..] == a[1..] + b;
      NonSpaceAppend(a[1..], b);
    }
  }

  lemma {:induction false} NonSpaceOfToken(t: string)
    requires NoSpace(t)
    ensures NonSpace(t) == t
  {
    if |t| > 0 {
      NonSpaceOfToken(t[1..]);
    }
  }

  /** Splitting loses exactly the whitespace: the tokens, put together, are the other characters of s. */
  lemma {:induction false} SplitKeepsNonSpace(s: string)
    ensures Batcher.Flatten(Split(s)) == NonSpace(s)
    decreases |s|
  {
    if |s| > 0 {
      if IsSpace(s[0]) {
        SplitKeepsNonSpace(s[1..]);
      } else {
        var w := Word(s);
        var rest := s[|w|..];
        SplitKeepsNonSpace(rest);
        assert s == w + rest;
        NonSpaceAppend(w, rest);
        NonSpaceOfToken(w);
      }
    }
  }

  /** Joining tokens with single spaces and splitting again gives the tokens back. */
  lemma {:induction false} SplitJoin(tokens: seq<string>)
    requires forall i :: 0 <= i < |tokens| ==> IsToken(tokens[i])
    ensures Split(Join(" ", tokens)) == tokens
  {
    if |tokens| == 1 {
      var t := tokens[0];
      WordOfToken(t, "");
      assert t + "" == t;
      assert t[|t|..] == "";
    } else if |tokens| > 1 {
      var t := tokens[0];
      var j := Join(" ", tokens[1..]);
      var s := t + (" " + j);
      assert Join(" ", tokens) == s;
      WordOfToken(t, " " + j);
      assert s[0] == t[0] && !IsSpace(s[0]);
      assert s[|t|..] == " " + j;
      assert Split(s) == [t] + Split(" " + j);
      assert (" " + j)[1..] == j;
      assert Split(" " + j) == Split(j);
      SplitJoin(tokens[1..]);
      assert tokens == [t] + tokens[1..];
    }
  }

  predicate AllSpace(g: string) {
    forall i :: 0 <= i < |g| ==> IsSpace(g[i])
  }

  /** The longest prefix of s made of whitespace. */
  function LeadingSpace(s: string): (g: string)
    ensures |g| <= |s| && g == s[..|g|]
    ensures AllSpace(g)
    ensures |g| == |s| || !IsSpace(s[|g|])
  {
    if |s| == 0 || !IsSpace(s[0]) then [] else [s[0]] + LeadingSpace(s[1..])
  }

  /** The whitespace runs of s: before the first token, between tokens, and after the last. */
  function Gaps(s: string): seq<string>
    decreases |s|
  {
    var g := LeadingSpace(s);
    var rest := s[|g|..];
    if |rest| == 0 then [g]
    else
      var w := Word(rest);
      [g] + Gaps(rest[|w|..])
  }

  /** gaps[0] + tokens[0] + gaps[1] + ... + tokens[k - 1] + gaps[k]. */
  function Interleave(gaps: seq<string>, tokens: seq<string>): string
    requires |gaps| == |tokens| + 1
    decreases |tokens|
  {
    if |tokens| == 0 then gaps[0] else gaps[0] + tokens[0] + Interleave(gaps[1..], tokens[1..])
  }

  /** Leading whitespace does not change the tokens. */
  lemma {:induction false} SkipSpace(s: string, k: nat)
    requires k <= |s|
    requires forall i :: 0 <= i < k ==> IsSpace(s[i])
    ensures Split(s) == Split(s[k..])
  {
    if k > 0 {
      assert IsSpace(s[0]);
      SkipSpace(s[1..], k - 1);
      assert s[1..][k - 1..] == s[k..];
    }
  }

  /**
   * One step of the decomposition: when s holds a token, it is a whitespace
   * run g, the first token w, and a remainder r2 that is empty or starts with
   * whitespace.
   */
  lemma SplitStep(s: string)
    requires |s[|LeadingSpace(s)|..]| > 0
    ensures var g := LeadingSpace(s);
            var w := Word(s[|g|..]);
            var r2 := s[|g| + |w|..];
            |w| > 0 && s == g + w + r2
            && Split(s) == [w] + Split(r2)
            && Gaps(s) == [g] + Gaps(r2)
            && (|r2| == 0 || IsSpace(r2[0]))
  {
    var g := LeadingSpace(s);
    var rest := s[|g|..];
    assert forall i :: 0 <= i < |g| ==> g[i] == s[i];
    SkipSpace(s, |g|);
    assert !IsSpace(rest[0]);
    var w := Word(rest);
    assert rest[|w|..] == s[|g| + |w|..];
    assert s == g + rest && rest == w + rest[|w|..];
  }

  /** The gap that follows the first token of a non-empty remainder is non-empty. */
  lemma GapAfterToken(r2: string)
    requires |r2| > 0 && IsSpace(r2[0])
    ensures |Gaps(r2)[0]| > 0
  {
  }

  /**
   * The tokens are the maximal runs of non-whitespace: s is a whitespace run,
   * the first token, a non-empty whitespace run, the second token, and so on,
   * ending with a (possibly empty) whitespace run.
   */
  lemma {:induction false} SplitMaximalRuns(s: string)
    ensures |Gaps(s)| == |Split(s)| + 1
    ensures forall i :: 0 <= i < |Gaps(s)| ==> AllSpace(Gaps(s)[i])
    ensures forall i :: 0 < i < |Split(s)| ==> |Gaps(s)[i]| > 0
    ensures Interleave(Gaps(s), Split(s)) == s
    decreases |s|
  {
    var g := LeadingSpace(s);
    if |s[|g|..]| == 0 {
      assert forall i :: 0 <= i < |g| ==> g[i] == s[i];
      SkipSpace(s, |g|);
      assert Split(s) == [];
      assert Gaps(s) == [g];
    } else {
      SplitStep(s);
      var w := Word(s[|g|..]);
      var r2 := s[|g| + |w|..];
      SplitMaximalRuns(r2);
      var gs, ts := Gaps(r2), Split(r2);
      assert Gaps(s)[1..] == gs && Split(s)[1..] == ts;
      if |ts| > 0 {
        GapAfterToken(r2);
      }
      assert forall i :: 1 <= i < |Gaps(s)| ==> Gaps(s)[i] == gs[i - 1];
      assert Interleave(Gaps(s), Split(s)) == g + w + Interleave(gs, ts);
    }
  }

  /** A joined list of tokens is empty exactly when the list is. */
  lemma {:induction false} JoinEmpty(tokens: seq<string>)
    requires forall i :: 0 <= i < |tokens| ==> IsToken(tokens[i])
    ensures Join(" ", tokens) == "" <==> |tokens| == 0
  {
    if |tokens| > 0 {
      assert |tokens[0]| > 0;
      if |tokens| > 1 {
        assert |Join(" ", tokens)| >= |tokens[0]|;
      }
    }
  }

  /** A name becomes "" exactly when it has at most one token. */
  lemma RemoveLastTokenEmpty(name: string)
    ensures RemoveLastToken(name) == "" <==> |Split(name)| <= 1
  {
    JoinEmpty(DropLast(Split(name)));
  }

  /** A first and last name keeps its first name. */
  lemma RemoveLastTokenFullName()
    ensures RemoveLastToken("Alice Smith") == "Alice"
  {
    var toks := ["Alice", "Smith"];
    assert IsToken(toks[0]) && IsToken(toks[1]);
    assert Join(" ", toks) == "Alice Smith";
    SplitJoin(toks);
    assert DropLast(toks) == ["Alice"];
  }

  /** A single name becomes the empty string. */
  lemma RemoveLastTokenSingle()
    ensures RemoveLastToken("Bob") == ""
  {
    assert IsToken("Bob");
    SplitJoin(["Bob"]);
  }
}
