/**
 * The string operations the blog code leans on: `trim`, `toLowerCase`,
 * `includes`, the tag slug (`toLowerCase().replace(/\s+/g, '-')`) and the
 * "first n characters plus an ellipsis" truncation.
 */
module Text {

  /** The white-space characters that `trim` and `\s` remove (the common ones). */
  predicate IsSpace(c: char) {
    c == ' ' || c == '\t' || c == '\n' || c == '\r' ||
    c == '\U{000B}' || c == '\U{000C}' || c == '\U{00A0}' || c == '\U{FEFF}'
  }

  /** Every character is white space (so the empty string is blank). */
  predicate IsBlank(s: string) {
    forall i :: 0 <= i < |s| ==> IsSpace(s[i])
  }

  /** `s` without its leading white space. */
  function TrimStart(s: string): (r: string)
    ensures |r| <= |s| && r == s[|s| - |r|..]
    ensures r == [] || !IsSpace(r[0])
    ensures IsBlank(s[..|s| - |r|])
  {
    if |s| > 0 && IsSpace(s[0]) then
      var r := TrimStart(s[1..]);
      TrimStartStep(s, r);
      r
    else s
  }

  /** Dropping one leading space keeps what `TrimStart` promises of the rest. */
  lemma TrimStartStep(s: string, r: string)
    requires |s| > 0 && IsSpace(s[0])
    requires |r| <= |s| - 1 && r == s[1..][|s| - 1 - |r|..]
    requires IsBlank(s[1..][..|s| - 1 - |r|])
    ensures r == s[|s| - |r|..]
    ensures IsBlank(s[..|s| - |r|])
  {
    var k := |s| - |r|;
    assert s[1..][k - 1..] == s[k..];
    forall i | 0 <= i < k ensures IsSpace(s[..k][i]) {
      if i > 0 {
        assert s[..k][i] == s[1..][..k - 1][i - 1];
      }
    }
  }

  /** `s` without its trailing white space. */
  function TrimEnd(s: string): (r: string)
    ensures |r| <= |s| && r == s[..|r|]
    ensures r == [] || !IsSpace(r[|r| - 1])
    ensures IsBlank(s[|r|..])
  {
    if |s| > 0 && IsSpace(s[|s| - 1]) then
      var r := TrimEnd(s[..|s| - 1]);
      TrimEndStep(s, r);
      r
    else s
  }

  /** Dropping one trailing space keeps what `TrimEnd` promises of the rest. */
  lemma TrimEndStep(s: string, r: string)
    requires |s| > 0 && IsSpace(s[|s| - 1])
    requires |r| <= |s| - 1 && r == s[..|s| - 1][..|r|]
    requires IsBlank(s[..|s| - 1][|r|..])
    ensures r == s[..|r|]
    ensures IsBlank(s[|r|..])
  {
    var k := |r|;
    assert s[..|s| - 1][..k] == s[..k];
    forall i | 0 <= i < |s| - k ensures IsSpace(s[k..][i]) {
      if i < |s| - 1 - k {
        assert s[k..][i] == s[..|s| - 1][k..][i];
      }
    }
  }

  /**
   * `String.prototype.trim`: the slice of `s` left after cutting a blank
   * prefix and a blank suffix, starting and ending with a non-space.
   */
  function Trim(s: string): (r: string)
    ensures |r| <= |s|
    ensures exists i, j :: 0 <= i <= j <= |s| && r == s[i..j] && IsBlank(s[..i]) && IsBlank(s[j..])
    ensures r == [] <==> IsBlank(s)
    ensures r == [] || (!IsSpace(r[0]) && !IsSpace(r[|r| - 1]))
  {
    TrimPasses(s);
    TrimStart(TrimEnd(s))
  }

  /** What the two passes of `Trim` give together. */
  lemma TrimPasses(s: string)
    ensures var r := TrimStart(TrimEnd(s));
      && (exists i, j :: 0 <= i <= j <= |s| && r == s[i..j] && IsBlank(s[..i]) && IsBlank(s[j..]))
      && (r == [] <==> IsBlank(s))
      && (r == [] || (!IsSpace(r[0]) && !IsSpace(r[|r| - 1])))
  {
    var e := TrimEnd(s);
    TrimBothEnds(s, e, TrimStart(e));
  }

  /**
   * What `Trim` inherits from its two passes: a prefix `e` of `s` followed by
   * blank text, and a suffix `r` of `e` preceded by blank text.
   */
  lemma TrimBothEnds(s: string, e: string, r: string)
    requires |e| <= |s| && e == s[..|e|] && (e == [] || !IsSpace(e[|e| - 1])) && IsBlank(s[|e|..])
    requires |r| <= |e| && r == e[|e| - |r|..] && (r == [] || !IsSpace(r[0])) && IsBlank(e[..|e| - |r|])
    ensures exists i, j :: 0 <= i <= j <= |s| && r == s[i..j] && IsBlank(s[..i]) && IsBlank(s[j..])
    ensures r == [] <==> IsBlank(s)
    ensures r == [] || (!IsSpace(r[0]) && !IsSpace(r[|r| - 1]))
  {
    var i, j := |e| - |r|, |e|;
    SliceOfPrefix(s, j, i, j);
    assert r == s[i..j] && IsBlank(s[..i]) && IsBlank(s[j..]);
    assert s == e + s[j..];
    assert e == e[..i] + r;
    if r != [] {
      assert r[|r| - 1] == e[|e| - 1];
      assert s[i] == r[0];
    }
  }

  /** Slices of a prefix are slices of the whole. */
  lemma SliceOfPrefix<T>(s: seq<T>, n: nat, i: nat, j: nat)
    requires i <= j <= n <= |s|
    ensures s[..n][i..j] == s[i..j] && s[..n][..i] == s[..i] && s[..n][j..] == s[j..n]
  {
  }

  /** `trim` is idempotent. */
  lemma TrimIdempotent(s: string)
    ensures Trim(Trim(s)) == Trim(s)
  {
    TrimFixed(Trim(s));
  }

  /** A string that neither starts nor ends with white space is its own trim. */
  lemma TrimFixed(s: string)
    requires s == [] || (!IsSpace(s[0]) && !IsSpace(s[|s| - 1]))
    ensures Trim(s) == s
  {
    if s != [] {
      assert TrimEnd(s) == s;
      assert TrimStart(s) == s;
    }
  }

  /** ASCII upper-case letters become lower-case; everything else is kept. */
  function LowerChar(c: char): char {
    if 'A' <= c <= 'Z' then (c as int + 32) as char else c
  }

  /**
   * `String.prototype.toLowerCase`, restricted to the ASCII letters: same
   * length, white space exactly where `s` has it.
   */
  function ToLower(s: string): (r: string)
    ensures |r| == |s|
    ensures forall i :: 0 <= i < |s| ==> r[i] == LowerChar(s[i])
    ensures forall i :: 0 <= i < |s| ==> (IsSpace(r[i]) <==> IsSpace(s[i]))
  {
    seq(|s|, i requires 0 <= i < |s| => LowerChar(s[i]))
  }

  /** Lower-casing twice is lower-casing once. */
  lemma ToLowerIdempotent(s: string)
    ensures ToLower(ToLower(s)) == ToLower(s)
  {
  }

  /** A string with no upper-case ASCII letter is already lower-case. */
  lemma ToLowerNoUpper(s: string)
    requires forall i :: 0 <= i < |s| ==> !('A' <= s[i] <= 'Z')
    ensures ToLower(s) == s
  {
  }

  /** Lower-casing works character by character, so it distributes over concatenation. */
  lemma ToLowerAppend(u: string, v: string)
    ensures ToLower(u + v) == ToLower(u) + ToLower(v)
  {
  }

  /** `s` begins with `p`. */
  predicate StartsWith(s: string, p: string) {
    |p| <= |s| && s[..|p|] == p
  }

  /** `s.includes(sub)`: `sub` occurs in `s` at some position. */
  predicate Contains(s: string, sub: string)
    decreases |s|
  {
    StartsWith(s, sub) || (|s| > 0 && Contains(s[1..], sub))
  }

  /** `sub` appears in `s` starting at offset `i`. */
  predicate OccursAt(s: string, sub: string, i: int) {
    0 <= i <= |s| - |sub| && s[i..i + |sub|] == sub
  }

  /** `Contains` is exactly "there is an offset where `sub` appears". */
  lemma {:induction false} ContainsAt(s: string, sub: string)
    ensures Contains(s, sub) <==> exists i :: OccursAt(s, sub, i)
    decreases |s|
  {
    assert StartsWith(s, sub) <==> OccursAt(s, sub, 0);
    if |s| > 0 {
      ContainsAt(s[1..], sub);
      if Contains(s[1..], sub) {
        var i :| OccursAt(s[1..], sub, i);
        assert s[1..][i..i + |sub|] == s[i + 1..i + 1 + |sub|];
        assert OccursAt(s, sub, i + 1);
      }
      if exists i :: OccursAt(s, sub, i) {
        var i :| OccursAt(s, sub, i);
        if i > 0 {
          assert s[1..][i - 1..i - 1 + |sub|] == s[i..i + |sub|];
          assert OccursAt(s[1..], sub, i - 1);
        }
      }
    } else {
      if exists i :: OccursAt(s, sub, i) {
        var i :| OccursAt(s, sub, i);
        assert i == 0;
      }
    }
  }

  /** Every string contains the empty string: an empty search term matches everything. */
  lemma ContainsEmpty(s: string)
    ensures Contains(s, [])
  {
  }

  /** Replaces every maximal run of white space by one `-`. */
  function DashSpaceRuns(s: string): (r: string)
    ensures |r| <= |s|
    ensures forall i :: 0 <= i < |r| ==> !IsSpace(r[i])
    ensures (forall i :: 0 <= i < |s| ==> !IsSpace(s[i])) ==> r == s
  {
    if forall i :: 0 <= i < |s| ==> !IsSpace(s[i]) then
      DashedFixed(s, false);
      Dashed(s, false)
    else
      Dashed(s, false)
  }

  /**
   * The scan behind `DashSpaceRuns`: `inRun` says that the characters just
   * before `s` were white space already replaced by a `-`, so further white
   * space adds nothing.
   */
  function Dashed(s: string, inRun: bool): (r: string)
    ensures |r| <= |s|
    ensures forall i :: 0 <= i < |r| ==> !IsSpace(r[i])
    decreases |s|
  {
    if |s| == 0 then [] else Lead(s[0], inRun) + Dashed(s[1..], IsSpace(s[0]))
  }

  /** What one character contributes to the scan: itself, the run's `-`, or nothing. */
  function Lead(c: char, inRun: bool): (r: string)
    ensures r == [] || (|r| == 1 && !IsSpace(r[0]))
    ensures !IsSpace(c) ==> r == [c]
    ensures IsSpace(c) ==> (r == [] <==> inRun)
  {
    if !IsSpace(c) then [c] else if inRun then [] else "-"
  }

  /** Text without white space passes through the scan unchanged. */
  lemma {:induction false} DashedFixed(s: string, inRun: bool)
    requires forall i :: 0 <= i < |s| ==> !IsSpace(s[i])
    ensures Dashed(s, inRun) == s
    decreases |s|
  {
    if s != [] {
      assert !IsSpace(s[0]);
      assert forall i :: 0 <= i < |s[1..]| ==> s[1..][i] == s[i + 1];
      DashedFixed(s[1..], false);
      assert s == [s[0]] + s[1..];
    }
  }

  /** Leading white space ends where the first non-space begins. */
  lemma {:induction false} TrimStartBlank(w: string, v: string)
    requires IsBlank(w) && (v == [] || !IsSpace(v[0]))
    ensures TrimStart(w + v) == v
    decreases |w|
  {
    if w == [] {
      assert w + v == v;
    } else {
      assert (w + v)[1..] == w[1..] + v;
      TrimStartBlank(w[1..], v);
    }
  }

  /**
   * A string that ends in a non-space closes any run before what follows,
   * so the scan of the rest starts afresh.
   */
  lemma {:induction false} DashedAppend(u: string, x: string, inRun: bool)
    requires u != [] && !IsSpace(u[|u| - 1])
    ensures Dashed(u + x, inRun) == Dashed(u, inRun) + Dashed(x, false)
    decreases |u|
  {
    if |u| == 1 {
      DashedAppendLast(u, x, inRun);
    } else {
      DashedAppend(u[1..], x, IsSpace(u[0]));
      DashedAppendStep(u, x, inRun);
    }
  }

  /** The last character of `u`, a non-space, ends any run before `x`. */
  lemma DashedAppendLast(u: string, x: string, inRun: bool)
    requires |u| == 1 && !IsSpace(u[0])
    ensures Dashed(u + x, inRun) == Dashed(u, inRun) + Dashed(x, false)
  {
    assert (u + x)[0] == u[0];
    assert (u + x)[1..] == x;
  }

  /** One character of `u` is scanned the same way whatever follows `u`. */
  lemma DashedAppendStep(u: string, x: string, inRun: bool)
    requires |u| > 1
    requires Dashed(u[1..] + x, IsSpace(u[0])) == Dashed(u[1..], IsSpace(u[0])) + Dashed(x, false)
    ensures Dashed(u + x, inRun) == Dashed(u, inRun) + Dashed(x, false)
  {
    HeadTailAppend(u, x);
    var h, a, b := Lead(u[0], inRun), Dashed(u[1..], IsSpace(u[0])), Dashed(x, false);
    calc {
      Dashed(u + x, inRun);
      h + Dashed(u[1..] + x, IsSpace(u[0]));
      h + (a + b);
      { AppendAssoc(h, a, b); }
      (h + a) + b;
    }
  }

  /** The head and tail of a concatenation with a non-empty front. */
  lemma HeadTailAppend<T>(u: seq<T>, x: seq<T>)
    requires u != []
    ensures (u + x)[0] == u[0] && (u + x)[1..] == u[1..] + x
  {
  }

  /** Concatenation is associative. */
  lemma AppendAssoc<T>(a: seq<T>, b: seq<T>, c: seq<T>)
    ensures a + (b + c) == (a + b) + c
  {
  }

  /**
   * The runs of a string that is empty or ends in a non-space do not reach
   * into what follows, so its dashed form is kept as a prefix.
   */
  lemma DashSpaceRunsAppend(u: string, x: string)
    requires u == [] || !IsSpace(u[|u| - 1])
    ensures DashSpaceRuns(u + x) == DashSpaceRuns(u) + DashSpaceRuns(x)
  {
    if u == [] {
      assert u + x == x;
    } else {
      DashedAppend(u, x, false);
    }
  }

  /** Inside a run, the rest of the run adds nothing. */
  lemma {:induction false} DashedInRun(w: string, v: string)
    requires IsBlank(w)
    requires v == [] || !IsSpace(v[0])
    ensures Dashed(w + v, true) == Dashed(v, false)
    decreases |w|
  {
    if w == [] {
      assert w + v == v;
    } else {
      assert (w + v)[0] == w[0];
      assert (w + v)[1..] == w[1..] + v;
      DashedInRun(w[1..], v);
    }
  }

  /** A non-empty blank run followed by a non-space (or by nothing) becomes a single `-`. */
  lemma DashSpaceRunsBlank(w: string, v: string)
    requires IsBlank(w) && w != []
    requires v == [] || !IsSpace(v[0])
    ensures DashSpaceRuns(w + v) == "-" + DashSpaceRuns(v)
  {
    assert (w + v)[0] == w[0];
    assert (w + v)[1..] == w[1..] + v;
    DashedInRun(w[1..], v);
  }

  /**
   * Between two parts that do not touch it, a maximal white-space run
   * becomes exactly one `-`, and the parts are dashed independently.
   */
  lemma DashSpaceRunsRuns(u: string, w: string, v: string)
    requires IsBlank(w) && w != []
    requires u == [] || !IsSpace(u[|u| - 1])
    requires v == [] || !IsSpace(v[0])
    ensures DashSpaceRuns(u + w + v) == DashSpaceRuns(u) + "-" + DashSpaceRuns(v)
  {
    var x := w + v;
    AppendAssoc(u, w, v);
    DashSpaceRunsBlank(w, v);
    DashSpaceRunsAppend(u, x);
    AppendAssoc(DashSpaceRuns(u), "-", DashSpaceRuns(v));
  }

  /** A non-space character is kept, in place, ahead of the rest. */
  lemma DashSpaceRunsKeeps(c: char, v: string)
    requires !IsSpace(c)
    ensures DashSpaceRuns([c] + v) == [c] + DashSpaceRuns(v)
  {
    assert ([c] + v)[1..] == v;
  }

  /** The tag slug `name.toLowerCase().replace(/\s+/g, '-')`. */
  function Slug(name: string): (r: string)
    ensures |r| <= |name|
    ensures forall i :: 0 <= i < |r| ==> !IsSpace(r[i])
    ensures (forall i :: 0 <= i < |name| ==> !IsSpace(name[i])) ==> r == ToLower(name)
  {
    DashSpaceRuns(ToLower(name))
  }

  /**
   * In a slug each maximal white-space run of the name becomes one `-`, and
   * the parts around it are lower-cased and slugged independently.
   */
  lemma SlugRuns(u: string, w: string, v: string)
    requires IsBlank(w) && w != []
    requires u == [] || !IsSpace(u[|u| - 1])
    requires v == [] || !IsSpace(v[0])
    ensures Slug(u + w + v) == Slug(u) + "-" + Slug(v)
  {
    ToLowerAppend(u + w, v);
    ToLowerAppend(u, w);
    var lw := ToLower(w);
    assert IsBlank(lw);
    DashSpaceRunsRuns(ToLower(u), lw, ToLower(v));
  }

  /** `text.substring(0, n)`: the first `n` characters, or all of a shorter text. */
  function Prefix(text: string, n: nat): (r: string)
    ensures |r| == if |text| <= n then |text| else n
    ensures r == text[..|r|]
  {
    if |text| <= n then text else text[..n]
  }

  /**
   * `text.length > n ? text.substring(0, n) + '...' : text`: a text longer
   * than `n` keeps its first `n` characters and gains an ellipsis; a shorter
   * one is returned as it is.
   */
  function Truncate(text: string, n: nat): (r: string)
    ensures |r| <= n + 3
    ensures |text| <= n ==> r == text
    ensures |text| > n ==> |r| == n + 3 && r[..n] == text[..n] && r[n..] == "..."
  {
    if |text| > n then Prefix(text, n) + "..." else text
  }
}
