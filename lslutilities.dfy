/** The text rewriting of the host's C# utilities (`LSLUtilities.cs`): the
    placeholder pass run before a generated script is written out, and the
    special-tag rewrite of Python source. */
module LSLUtilities {
  import opened Outcomes
  import opened PyStr

  // ---------------------------------------------------------------------
  // `String.Replace`.

  /** `s.Replace(pat, rep)` with ordinal comparison: the occurrences of
      `pat` are found left to right, each one starting after the previous
      one ends, and every one of them is replaced. .NET refuses an empty
      `pat`. */
  function Replace(s: string, pat: string, rep: string): (r: string)
    requires |pat| > 0
    ensures |rep| <= |pat| ==> |r| <= |s|
    ensures |rep| >= |pat| ==> |r| >= |s|
    decreases |s|
  {
    if |s| < |pat| then s
    else if s[..|pat|] == pat then rep + Replace(s[|pat|..], pat, rep)
    else [s[0]] + Replace(s[1..], pat, rep)
  }

  /** No character of `rep` occurs in `q`. */
  predicate Disjoint(rep: string, q: string) {
    forall c :: c in rep ==> c !in q
  }

  /** A text without `pat` comes back unchanged. */
  lemma {:induction false} ReplaceAbsent(s: string, pat: string, rep: string)
    requires |pat| > 0
    requires forall i :: !OccursAt(s, pat, i)
    ensures Replace(s, pat, rep) == s
    decreases |s|
  {
    if |s| >= |pat| {
      assert !OccursAt(s, pat, 0);
      forall i ensures !OccursAt(s[1..], pat, i) {
        if 0 <= i && i + |pat| <= |s| - 1 {
          assert s[1..][i..i + |pat|] == s[i + 1..i + 1 + |pat|];
          assert !OccursAt(s, pat, i + 1);
        }
      }
      ReplaceAbsent(s[1..], pat, rep);
      assert [s[0]] + s[1..] == s;
    }
  }

  /** A prefix of the result that holds no character of `rep` was copied
      from the same prefix of the input. */
  lemma {:induction false} CopiedPrefix(s: string, pat: string, rep: string, k: nat)
    requires |pat| > 0 && |rep| > 0
    ensures var r := Replace(s, pat, rep);
      k <= |r| && (forall j :: 0 <= j < k ==> r[j] !in rep) ==> k <= |s| && r[..k] == s[..k]
    decreases |s|
  {
    var r := Replace(s, pat, rep);
    if |s| < |pat| {
      assert r == s;
    } else if s[..|pat|] != pat && k > 0 {
      var r1 := Replace(s[1..], pat, rep);
      assert r == [s[0]] + r1;
      if k <= |r| && (forall j :: 0 <= j < k ==> r[j] !in rep) {
        forall j | 0 <= j < k - 1 ensures r1[j] !in rep {
          assert r1[j] == r[j + 1];
        }
        CopiedPrefix(s[1..], pat, rep, k - 1);
        assert r[..k] == [s[0]] + r1[..k - 1];
      }
    } else if |s| >= |pat| && s[..|pat|] == pat && k > 0 {
      assert r[0] == rep[0];
    }
  }

  /** Replacing `pat` by a text none of whose characters are in `pat`
      leaves no occurrence of `pat`. */
  lemma {:induction false} ReplaceRemoves(s: string, pat: string, rep: string)
    requires |pat| > 0 && |rep| > 0 && Disjoint(rep, pat)
    ensures forall i :: !OccursAt(Replace(s, pat, rep), pat, i)
    decreases |s|
  {
    ReplaceKeepsAbsent(s, pat, rep, pat, true);
  }

  /** Replacing `pat` by a text none of whose characters are in `q` creates
      no occurrence of `q`; when `q` is `pat` itself, every occurrence goes. */
  lemma {:induction false} ReplaceKeepsAbsent(s: string, pat: string, rep: string, q: string, same: bool)
    requires |pat| > 0 && |rep| > 0 && |q| > 0 && Disjoint(rep, q)
    requires same ==> q == pat
    requires !same ==> forall i :: !OccursAt(s, q, i)
    ensures forall i :: !OccursAt(Replace(s, pat, rep), q, i)
    decreases |s|
  {
    var r := Replace(s, pat, rep);
    if |s| >= |pat| {
      var opens := s[..|pat|] == pat;
      var tailStart := if opens then |pat| else 1;
      var head := if opens then rep else [s[0]];
      var r1 := Replace(s[tailStart..], pat, rep);
      forall i ensures !same ==> !OccursAt(s[tailStart..], q, i) {
        if 0 <= i && i + |q| <= |s| - tailStart {
          assert s[tailStart..][i..i + |q|] == s[i + tailStart..i + tailStart + |q|];
          assert !same ==> !OccursAt(s, q, i + tailStart);
        }
      }
      ReplaceKeepsAbsent(s[tailStart..], pat, rep, q, same);
      assert r == head + r1;
      AbsentAfterHead(head, r1, q);
      if opens {
        AbsentInRep(rep, r1, q);
      } else if |q| <= |r| {
        KeepsAtStart(s, pat, rep, q, same);
      }
    } else {
      assert r == s;
    }
  }

  /** An occurrence of `q` that starts after `head` lies inside `r1`. */
  lemma AbsentAfterHead(head: string, r1: string, q: string)
    requires forall i :: !OccursAt(r1, q, i)
    ensures forall i :: |head| <= i ==> !OccursAt(head + r1, q, i)
  {
    var r := head + r1;
    forall i | |head| <= i && i + |q| <= |r| ensures !OccursAt(r, q, i) {
      assert r[i..i + |q|] == r1[i - |head|..i - |head| + |q|];
      assert !OccursAt(r1, q, i - |head|);
    }
  }

  /** No occurrence of `q` starts inside a text none of whose characters
      are in `q`. */
  lemma AbsentInRep(rep: string, r1: string, q: string)
    requires |q| > 0 && Disjoint(rep, q)
    ensures forall i :: i < |rep| ==> !OccursAt(rep + r1, q, i)
  {
    var r := rep + r1;
    forall i | 0 <= i < |rep| && i + |q| <= |r| ensures !OccursAt(r, q, i) {
      assert r[i..i + |q|][0] == rep[i];
      assert q[0] in q;
    }
  }

  /** The first step of `ReplaceKeepsAbsent`, when the input does not open
      with `pat`: an occurrence of `q` at the start of the result would have
      been copied from the input. */
  lemma KeepsAtStart(s: string, pat: string, rep: string, q: string, same: bool)
    requires |pat| > 0 && |rep| > 0 && |q| > 0 && Disjoint(rep, q)
    requires same ==> q == pat
    requires !same ==> forall i :: !OccursAt(s, q, i)
    requires |s| >= |pat| && s[..|pat|] != pat
    requires |q| <= |Replace(s, pat, rep)|
    ensures !OccursAt(Replace(s, pat, rep), q, 0)
  {
    var r := Replace(s, pat, rep);
    CopiedPrefix(s, pat, rep, |q|);
    assert r[0..|q|] == r[..|q|];
    assert |q| <= |s| ==> s[0..|q|] == s[..|q|];
    if r[..|q|] == q {
      forall j | 0 <= j < |q| ensures r[j] !in rep {
        assert r[j] == q[j];
        assert q[j] in q;
      }
      assert s[..|q|] == q;
      assert !same ==> OccursAt(s, q, 0);
    }
  }

  // ---------------------------------------------------------------------
  // The placeholder pass of `WriteScriptToLSLFile`.

  const OBrace := "__obrace__"
  const CBrace := "__cbrace__"
  const DQuote := "__dquote__"

  /** The three replacements, in the order the host runs them. */
  function Substitute(s: string): (r: string)
    ensures |r| <= |s|
  {
    Replace(Replace(Replace(s, OBrace, "{"), CBrace, "}"), DQuote, "\"")
  }

  /** After the pass no placeholder is left. */
  lemma NoPlaceholderLeft(s: string)
    ensures forall i :: !OccursAt(Substitute(s), OBrace, i)
    ensures forall i :: !OccursAt(Substitute(s), CBrace, i)
    ensures forall i :: !OccursAt(Substitute(s), DQuote, i)
  {
    var s1 := Replace(s, OBrace, "{");
    var s2 := Replace(s1, CBrace, "}");
    ReplaceRemoves(s, OBrace, "{");
    ReplaceKeepsAbsent(s1, CBrace, "}", OBrace, false);
    ReplaceKeepsAbsent(s2, DQuote, "\"", OBrace, false);
    ReplaceRemoves(s1, CBrace, "}");
    ReplaceKeepsAbsent(s2, DQuote, "\"", CBrace, false);
    ReplaceRemoves(s2, DQuote, "\"");
  }

  /** A text holding no placeholder passes through unchanged. */
  lemma PlaceholderFreeUnchanged(s: string)
    requires forall i :: !OccursAt(s, OBrace, i)
    requires forall i :: !OccursAt(s, CBrace, i)
    requires forall i :: !OccursAt(s, DQuote, i)
    ensures Substitute(s) == s
  {
    ReplaceAbsent(s, OBrace, "{");
    ReplaceAbsent(s, CBrace, "}");
    ReplaceAbsent(s, DQuote, "\"");
  }

  /** The order of the replacements matters: run in the host's order,
      `__obrace__cbrace__` becomes `{cbrace__`, because the brace placeholder
      takes the underscores the second one would need. */
  lemma HostOrderExample()
    ensures Substitute(OBrace + "cbrace__") == "{cbrace__"
  {
    var s := OBrace + "cbrace__";
    assert s[..|OBrace|] == OBrace;
    assert s[|OBrace|..] == "cbrace__";
    assert Replace(s, OBrace, "{") == "{cbrace__";
  }

  /** Run the other way round, `__obrace__cbrace__` becomes `__obrace}`. */
  lemma ReversedOrderExample()
    ensures Replace(Replace(OBrace + "cbrace__", CBrace, "}"), OBrace, "{") == "__obrace}"
  {
    var s := OBrace + "cbrace__";
    var x := "__obrace";
    assert s == x + CBrace;
    forall i | 0 <= i < |x| ensures !OccursAt(x + CBrace, CBrace, i) {
      assert (x + CBrace)[i..i + |CBrace|][2] == s[i + 2];
      assert (x + CBrace)[i..i + |CBrace|][0] == s[i];
    }
    ReplaceSkips(x, CBrace, CBrace, "}");
    assert CBrace[..|CBrace|] == CBrace;
    assert Replace(CBrace, CBrace, "}") == "}";
  }

  /** A leading stretch where `pat` does not start is copied as it is. */
  lemma {:induction false} ReplaceSkips(x: string, y: string, pat: string, rep: string)
    requires |pat| > 0
    requires forall i | 0 <= i < |x| :: !OccursAt(x + y, pat, i)
    ensures Replace(x + y, pat, rep) == x + Replace(y, pat, rep)
    decreases |x|
  {
    if |x| > 0 {
      var t := x + y;
      assert t[1..] == x[1..] + y;
      NoOccurrenceShift(x, y, pat);
      ReplaceSkips(x[1..], y, pat, rep);
      assert !OccursAt(t, pat, 0);
      ReplaceCopiesHead(t, pat, rep);
      assert [x[0]] + x[1..] == x;
    } else {
      assert x + y == y;
    }
  }

  /** A stretch free of `pat` stays free of it one character shorter. */
  lemma NoOccurrenceShift(x: string, y: string, pat: string)
    requires |x| > 0
    requires forall i | 0 <= i < |x| :: !OccursAt(x + y, pat, i)
    ensures forall i | 0 <= i < |x| - 1 :: !OccursAt(x[1..] + y, pat, i)
  {
    var t := x + y;
    assert t[1..] == x[1..] + y;
    forall i | 0 <= i < |x| - 1 ensures !OccursAt(x[1..] + y, pat, i) {
      assert !OccursAt(t, pat, i + 1);
      if i + |pat| <= |t| - 1 {
        assert t[1..][i..i + |pat|] == t[i + 1..i + 1 + |pat|];
      }
    }
  }

  /** Where `pat` does not start, `Replace` copies one character. */
  lemma ReplaceCopiesHead(t: string, pat: string, rep: string)
    requires |pat| > 0 && |t| > 0 && !OccursAt(t, pat, 0)
    ensures Replace(t, pat, rep) == [t[0]] + Replace(t[1..], pat, rep)
  {
    if |t| < |pat| {
      assert Replace(t[1..], pat, rep) == t[1..];
      assert [t[0]] + t[1..] == t;
    } else {
      assert t[0..|pat|] == t[..|pat|];
    }
  }

  // ---------------------------------------------------------------------
  // `ProcessSpecialTags`.

  const TagHead := "XX_CREATEWORKDIR~"
  const TagTail := "_XX"
  const WorkDirTag := "XX_WORKDIR_XX"

  /** `\s` of .NET regular expressions: `[\f\n\r\t\v\x85\p{Z}]`. */
  predicate IsNetSpace(c: char) {
    ('\t' <= c <= '\r') || c == '\U{85}' || c == ' ' || c == '\U{A0}' || c == '\U{1680}'
    || ('\U{2000}' <= c <= '\U{200A}') || c == '\U{2028}' || c == '\U{2029}'
    || c == '\U{202F}' || c == '\U{205F}' || c == '\U{3000}'
  }

  predicate AllNetSpace(s: string) {
    forall i :: 0 <= i < |s| ==> IsNetSpace(s[i])
  }

  /** One way `(XX_CREATEWORKDIR~(.*)_XX\s*\n)` matches `s` at `i`: the
      directory `s[i + 17..p]` holds no newline (`.` stops at one), `_XX`
      follows at `p`, and `s[p + 3..q]` is white space ending in the
      newline at `q - 1`. */
  predicate TagMatch(s: string, i: nat, p: nat, q: nat) {
    && OccursAt(s, TagHead, i)
    && i + |TagHead| <= p
    && OccursAt(s, TagTail, p)
    && '\n' !in s[i + |TagHead|..p]
    && p + |TagTail| < q <= |s|
    && AllNetSpace(s[p + |TagTail|..q])
    && s[q - 1] == '\n'
  }

  /** `(i, p, q)` is what the regular expression reports when it is run from
      `i0` on: the match at the leftmost start, with the longest directory
      (`.*` is greedy) and then the longest white space (`\s*` is greedy). */
  ghost predicate ChosenFrom(s: string, i0: nat, i: nat, p: nat, q: nat) {
    && i0 <= i
    && TagMatch(s, i, p, q)
    && (forall i': nat, p': nat, q': nat :: i0 <= i' < i ==> !TagMatch(s, i', p', q'))
    && (forall p': nat, q': nat :: p < p' ==> !TagMatch(s, i, p', q'))
    && (forall q': nat :: q < q' ==> !TagMatch(s, i, p, q'))
  }

  /** The pattern matches nowhere from `i0` on. */
  ghost predicate NoMatchFrom(s: string, i0: nat) {
    forall i: nat, p: nat, q: nat :: i0 <= i ==> !TagMatch(s, i, p, q)
  }

  /** The first newline at or after `k`, or the end of `s`. */
  function LineEnd(s: string, k: nat): (e: nat)
    requires k <= |s|
    ensures k <= e <= |s|
    ensures '\n' !in s[k..e]
    ensures e < |s| ==> s[e] == '\n'
    decreases |s| - k
  {
    if k == |s| || s[k] == '\n' then k
    else
      var e := LineEnd(s, k + 1);
      assert s[k..e] == [s[k]] + s[k + 1..e];
      e
  }

  /** A stretch without newline from `k` ends at or before the line's end. */
  lemma {:induction false} LineEndBound(s: string, k: nat, m: nat)
    requires k <= m <= |s| && '\n' !in s[k..m]
    ensures m <= LineEnd(s, k)
    decreases m - k
  {
    if k < m {
      assert s[k] == s[k..m][0];
      assert s[k + 1..m] == s[k..m][1..];
      LineEndBound(s, k + 1, m);
    }
  }

  /** A newline at or after `k` is at or after the line's end. */
  lemma {:induction false} LineEndBefore(s: string, k: nat, j: nat)
    requires k <= j < |s| && s[j] == '\n'
    ensures LineEnd(s, k) <= j
    decreases j - k
  {
    if k < j && s[k] != '\n' {
      LineEndBefore(s, k + 1, j);
    }
  }

  /** The end of the run of white space starting at `k`. */
  function SpaceRunEnd(s: string, k: nat): (e: nat)
    requires k <= |s|
    ensures k <= e <= |s|
    ensures AllNetSpace(s[k..e])
    decreases |s| - k
  {
    if k == |s| || !IsNetSpace(s[k]) then k
    else
      var e := SpaceRunEnd(s, k + 1);
      assert s[k..e] == [s[k]] + s[k + 1..e];
      e
  }

  /** White space from `k` to `m` lies inside the run. */
  lemma {:induction false} SpaceRunBound(s: string, k: nat, m: nat)
    requires k <= m <= |s| && AllNetSpace(s[k..m])
    ensures m <= SpaceRunEnd(s, k)
    decreases m - k
  {
    if k < m {
      assert s[k] == s[k..m][0];
      assert s[k + 1..m] == s[k..m][1..];
      SpaceRunBound(s, k + 1, m);
    }
  }

  /** White space up to a newline is white space through it. */
  lemma SpaceThroughNewline(s: string, k: nat, e: nat)
    requires k <= e < |s| && AllNetSpace(s[k..e]) && s[e] == '\n'
    ensures AllNetSpace(s[k..e + 1])
  {
    assert s[k..e + 1] == s[k..e] + [s[e]];
  }

  /** `_XX` at `p` on a line ending with the newline at `e`, followed by
      white space up to that newline. */
  predicate TailFits(s: string, p: nat, e: nat) {
    p + |TagTail| <= e < |s| && s[e] == '\n' && OccursAt(s, TagTail, p) && AllNetSpace(s[p + |TagTail|..e])
  }

  /** Searching down from `p` to `b`: the largest position where the tail
      fits, or -1. */
  function LastTail(s: string, b: nat, p: nat, e: nat): (r: int)
    requires b <= p
    ensures r == -1 || (b <= r <= p && TailFits(s, r, e))
    decreases p - b
  {
    if TailFits(s, p, e) then p
    else if p == b then -1
    else LastTail(s, b, p - 1, e)
  }

  /** No position above the one `LastTail` reports fits. */
  lemma {:induction false} LastTailSpec(s: string, b: nat, p: nat, e: nat)
    requires b <= p
    ensures forall p': nat :: b <= p' <= p && LastTail(s, b, p, e) < p' ==> !TailFits(s, p', e)
    decreases p - b
  {
    if !TailFits(s, p, e) && p > b {
      LastTailSpec(s, b, p - 1, e);
    }
  }

  /** One past the last newline of `s[e..w]`, given that `s[e]` is one. */
  function LastNewline(s: string, e: nat, w: nat): (q: nat)
    requires e < w <= |s| && s[e] == '\n'
    ensures e < q <= w && s[q - 1] == '\n'
    ensures forall j :: q <= j < w ==> s[j] != '\n'
    decreases w - e
  {
    if s[w - 1] == '\n' then w else LastNewline(s, e, w - 1)
  }

  /** Where the match ends once `_XX` is placed at `p`: after the last
      newline of the white space that follows. */
  function MatchEnd(s: string, p: nat, e: nat): (q: nat)
    requires TailFits(s, p, e)
    ensures e < q <= |s| && AllNetSpace(s[p + |TagTail|..q]) && s[q - 1] == '\n'
  {
    var w := SpaceRunEnd(s, p + |TagTail|);
    SpaceThroughNewline(s, p + |TagTail|, e);
    SpaceRunBound(s, p + |TagTail|, e + 1);
    var q := LastNewline(s, e, w);
    SpacePrefix(s, p + |TagTail|, q, w);
    q
  }

  /** A prefix of white space is white space. */
  lemma SpacePrefix(s: string, a: nat, q: nat, w: nat)
    requires a <= q <= w <= |s| && AllNetSpace(s[a..w])
    ensures AllNetSpace(s[a..q])
  {
    forall i | 0 <= i < q - a ensures IsNetSpace(s[a..q][i]) {
      assert s[a..q][i] == s[a..w][i];
    }
  }

  /** A prefix of a line holds no newline. */
  lemma NewlineFreePrefix(s: string, b: nat, p: nat, e: nat)
    requires b <= p <= e <= |s| && '\n' !in s[b..e]
    ensures '\n' !in s[b..p]
  {
    forall i | 0 <= i < p - b ensures s[b..p][i] != '\n' {
      assert s[b..p][i] == s[b..e][i];
    }
  }

  /** The regular expression's match, searched from `i` on: the start,
      the end of the directory and the end of the match. */
  function MatchFrom(s: string, i: nat): (r: Option<(nat, nat, nat)>)
    requires i <= |s|
    ensures r.Some? ==> TagMatch(s, r.value.0, r.value.1, r.value.2)
    decreases |s| - i
  {
    if i + |TagHead| > |s| then None
    else if !OccursAt(s, TagHead, i) then MatchFrom(s, i + 1)
    else match MatchAt(s, i)
      case None => MatchFrom(s, i + 1)
      case Some((p, q)) => Some((i, p, q))
  }

  /** The match at a start `i` that holds the head: the end of the
      directory is the last `_XX` on the line where the tail fits. */
  function MatchAt(s: string, i: nat): (r: Option<(nat, nat)>)
    requires OccursAt(s, TagHead, i)
    ensures r.Some? ==> TagMatch(s, i, r.value.0, r.value.1)
  {
    var b := i + |TagHead|;
    var e := LineEnd(s, b);
    var p := LastTail(s, b, e, e);
    if p == -1 then None
    else
      var q := MatchEnd(s, p, e);
      NewlineFreePrefix(s, b, p, e);
      Some((p, q))
  }

  /** Every way the pattern matches at `i` puts `_XX` on the line of the
      tag, where the tail fits. */
  lemma TagMatchOnLine(s: string, i: nat, p: nat, q: nat)
    requires i + |TagHead| <= |s|
    ensures var e := LineEnd(s, i + |TagHead|);
      TagMatch(s, i, p, q) ==> p <= e && TailFits(s, p, e)
  {
    var b := i + |TagHead|;
    var e := LineEnd(s, b);
    if TagMatch(s, i, p, q) {
      assert s[b..p + |TagTail|] == s[b..p] + TagTail;
      LineEndBound(s, b, p + |TagTail|);
      LineEndBefore(s, b, q - 1);
      assert s[p + |TagTail|..e] == s[p + |TagTail|..q][..e - (p + |TagTail|)];
    }
  }

  /** The white space of any match at `i` and `p` lies inside the run. */
  lemma MatchEndBound(s: string, i: nat, p: nat, q: nat)
    requires p + |TagTail| <= |s|
    ensures TagMatch(s, i, p, q) ==> q <= SpaceRunEnd(s, p + |TagTail|)
  {
    if TagMatch(s, i, p, q) {
      SpaceRunBound(s, p + |TagTail|, q);
    }
  }

  /** When the tail fits nowhere on the tag's line, the pattern does not
      match at `i`. */
  lemma NoMatchAt(s: string, i: nat)
    requires i + |TagHead| <= |s|
    requires var b := i + |TagHead|; var e := LineEnd(s, b); LastTail(s, b, e, e) == -1
    ensures forall p: nat, q: nat :: !TagMatch(s, i, p, q)
  {
    var b := i + |TagHead|;
    var e := LineEnd(s, b);
    LastTailSpec(s, b, e, e);
    forall p: nat, q: nat ensures !TagMatch(s, i, p, q) {
      TagMatchOnLine(s, i, p, q);
      assert TagMatch(s, i, p, q) ==> b <= p <= e && TailFits(s, p, e);
    }
  }

  /** The directory `MatchFrom` takes at `i` is the longest one. */
  lemma LongestDirectory(s: string, i: nat, p: nat)
    requires i + |TagHead| <= |s|
    requires var b := i + |TagHead|; var e := LineEnd(s, b); p == LastTail(s, b, e, e)
    ensures forall p': nat, q': nat :: p < p' ==> !TagMatch(s, i, p', q')
  {
    var b := i + |TagHead|;
    var e := LineEnd(s, b);
    LastTailSpec(s, b, e, e);
    forall p': nat, q': nat ensures p < p' ==> !TagMatch(s, i, p', q') {
      TagMatchOnLine(s, i, p', q');
    }
  }

  /** The white space `MatchEnd` takes after `_XX` is the longest. */
  lemma LongestSpace(s: string, i: nat, p: nat, e: nat)
    requires TailFits(s, p, e)
    ensures forall q': nat :: MatchEnd(s, p, e) < q' ==> !TagMatch(s, i, p, q')
  {
    var w := SpaceRunEnd(s, p + |TagTail|);
    SpaceThroughNewline(s, p + |TagTail|, e);
    SpaceRunBound(s, p + |TagTail|, e + 1);
    assert MatchEnd(s, p, e) == LastNewline(s, e, w);
    forall q': nat ensures MatchEnd(s, p, e) < q' ==> !TagMatch(s, i, p, q') {
      MatchEndBound(s, i, p, q');
    }
  }

  /** `r` is what the regular expression reports when run from `i0`. */
  ghost predicate Reports(s: string, i0: nat, r: Option<(nat, nat, nat)>) {
    && (r.None? ==> NoMatchFrom(s, i0))
    && (r.Some? ==> ChosenFrom(s, i0, r.value.0, r.value.1, r.value.2))
  }

  /** A start where the pattern does not match can be skipped. */
  lemma SkipStart(s: string, i0: nat, r: Option<(nat, nat, nat)>)
    requires forall p: nat, q: nat :: !TagMatch(s, i0, p, q)
    requires Reports(s, i0 + 1, r)
    ensures Reports(s, i0, r)
  {
  }

  /** At a start where the tail fits, `MatchFrom` reports the match there. */
  lemma FoundAt(s: string, i0: nat)
    requires i0 + |TagHead| <= |s| && OccursAt(s, TagHead, i0)
    requires var b := i0 + |TagHead|; var e := LineEnd(s, b); LastTail(s, b, e, e) != -1
    ensures Reports(s, i0, MatchFrom(s, i0))
  {
    var b := i0 + |TagHead|;
    var e := LineEnd(s, b);
    var p := LastTail(s, b, e, e);
    LongestDirectory(s, i0, p);
    LongestSpace(s, i0, p, e);
  }

  /** `MatchFrom` finds what the regular expression reports, and nothing
      only when the pattern matches nowhere. */
  lemma {:induction false} MatchFromSpec(s: string, i0: nat)
    requires i0 <= |s|
    ensures Reports(s, i0, MatchFrom(s, i0))
    decreases |s| - i0
  {
    if i0 + |TagHead| > |s| {
    } else if !OccursAt(s, TagHead, i0) {
      MatchFromSpec(s, i0 + 1);
      SkipStart(s, i0, MatchFrom(s, i0 + 1));
    } else {
      var b := i0 + |TagHead|;
      var e := LineEnd(s, b);
      if LastTail(s, b, e, e) == -1 {
        NoMatchAt(s, i0);
        MatchFromSpec(s, i0 + 1);
        SkipStart(s, i0, MatchFrom(s, i0 + 1));
      } else {
        FoundAt(s, i0);
      }
    }
  }

  /** What `ProcessSpecialTags` deletes and what it takes as the
      directory are those of the regular expression's match, and without a
      match the source comes back as it is. */
  lemma ProcessSpecialTagsSpec(source: string)
    ensures MatchFrom(source, 0).None? ==> NoMatchFrom(source, 0) && ProcessSpecialTags(source) == source
    ensures MatchFrom(source, 0).Some? ==>
      var m := MatchFrom(source, 0).value;
      && ChosenFrom(source, 0, m.0, m.1, m.2)
      && ProcessSpecialTags(source)
         == Replace(Replace(source, source[m.0..m.2], ""), WorkDirTag, source[m.0 + |TagHead|..m.1])
  {
    MatchFromSpec(source, 0);
    match MatchFrom(source, 0)
    case None =>
    case Some(m) =>
      assert ProcessSpecialTags(source)
        == Replace(Replace(source, source[m.0..m.2], ""), WorkDirTag, source[m.0 + |TagHead|..m.1]);
  }

  /** `ProcessSpecialTags`: every copy of the matched text is deleted and
      then every `XX_WORKDIR_XX` becomes the directory. */
  function ProcessSpecialTags(source: string): (r: string)
    ensures (forall i :: !OccursAt(source, TagHead, i)) ==> r == source
  {
    match MatchFrom(source, 0)
    case None => source
    case Some((i, p, q)) =>
      Replace(Replace(source, source[i..q], ""), WorkDirTag, source[i + |TagHead|..p])
  }

  /** Once processed, no `XX_WORKDIR_XX` is left when the directory is not
      empty and shares no character with that tag. */
  lemma WorkDirReplaced(source: string)
    requires MatchFrom(source, 0).Some?
    requires var m := MatchFrom(source, 0).value;
      |source[m.0 + |TagHead|..m.1]| > 0 && Disjoint(source[m.0 + |TagHead|..m.1], WorkDirTag)
    ensures forall k :: !OccursAt(ProcessSpecialTags(source), WorkDirTag, k)
  {
    var m := MatchFrom(source, 0).value;
    ReplaceRemoves(Replace(source, source[m.0..m.2], ""), WorkDirTag, source[m.0 + |TagHead|..m.1]);
  }
}
