/** What the text replacements of prettify_symbol (src/formatting.cpp) leave behind. */
module Prettifying {
  import opened ReplaceAll

  // ---------------------------------------------------------------- closing brackets

  const SPACED := "> >"
  const TIGHT := ">>"

  /** A space between two closing brackets. */
  predicate IsInner(s: string, i: nat) {
    0 < i < |s| - 1 && s[i] == ' ' && s[i - 1] == '>' && s[i + 1] == '>'
  }

  /** The characters from i on, without the spaces between two closing brackets. */
  function Kept(s: string, i: nat): string
    requires i <= |s|
    decreases |s| - i
  {
    if i == |s| then "" else (if IsInner(s, i) then "" else [s[i]]) + Kept(s, i + 1)
  }

  lemma SpacedSettles()
    ensures Settles(SPACED, TIGHT)
  {
    ShorterSettles(SPACED, TIGHT);
  }

  lemma StartsSpaced(s: string)
    ensures SPACED <= s <==> |s| >= 3 && s[0] == '>' && s[1] == ' ' && s[2] == '>'
  {
  }

  /** Exactly those spaces are deleted. */
  lemma {:induction false} FoldingDeletesInnerSpaces(s: string, i: nat)
    requires i <= |s| && !IsInner(s, i)
    ensures Settles(SPACED, TIGHT) && Folded(s[i..], SPACED, TIGHT) == Kept(s, i)
    decreases |s| - i
  {
    hide Folded;
    SpacedSettles();
    var rest := s[i..];
    FoldedStep(rest, SPACED, TIGHT);
    StartsSpaced(rest);
    if i < |s| {
      if SPACED <= rest {
        assert (TIGHT + rest[3..])[1..] == s[i + 2..];
        assert Kept(s, i + 1) == Kept(s, i + 2) by {
          assert IsInner(s, i + 1);
        }
        FoldingDeletesInnerSpaces(s, i + 2);
      } else {
        assert rest[1..] == s[i + 1..];
        FoldingDeletesInnerSpaces(s, i + 1);
      }
    }
  }

  lemma FoldedFirst(s: string)
    requires s != ""
    ensures Settles(SPACED, TIGHT) && Folded(s, SPACED, TIGHT) != "" && Folded(s, SPACED, TIGHT)[0] == s[0]
  {
    SpacedSettles();
    FoldedStep(s, SPACED, TIGHT);
  }

  /** One pass leaves no occurrence, not even one that a replacement made. */
  lemma {:induction false} FoldingLeavesNone(s: string)
    ensures Settles(SPACED, TIGHT) && !Contains(Folded(s, SPACED, TIGHT), SPACED)
    decreases |s|
  {
    hide Folded;
    SpacedSettles();
    FoldedStep(s, SPACED, TIGHT);
    if s != "" {
      var t := if SPACED <= s then TIGHT + s[3..] else s;
      var rest := Folded(t[1..], SPACED, TIGHT);
      FoldingLeavesNone(t[1..]);
      StartsSpaced([t[0]] + rest);
      StartsSpaced(s);
      FoldedStep(t[1..], SPACED, TIGHT);
      StartsSpaced(t[1..]);
      if |t| > 2 {
        FoldedFirst(t[1..]);
        FoldedFirst(t[1..][1..]);
      } else if |t| == 2 {
        FoldedStep("", SPACED, TIGHT);
      }
      assert !(SPACED <= [t[0]] + rest);
      ContainsStep([t[0]] + rest, SPACED);
      assert ([t[0]] + rest)[1..] == rest;
    }
  }

  /** So a second pass changes nothing. */
  lemma FoldingTwice(s: string)
    ensures Settles(SPACED, TIGHT) && Folded(Folded(s, SPACED, TIGHT), SPACED, TIGHT) == Folded(s, SPACED, TIGHT)
  {
    FoldingLeavesNone(s);
    var t := Folded(s, SPACED, TIGHT);
    forall p | 0 <= p
      ensures !OccursAt(t, p, SPACED)
    {
      assert !Contains(t, SPACED);
    }
    NothingToFold(t, SPACED, TIGHT);
  }

  lemma ContainsStep(s: string, pat: string)
    requires s != ""
    ensures Contains(s, pat) <==> pat <= s || Contains(s[1..], pat)
  {
    NotAtStart(s, pat);
    if Contains(s, pat) {
      var p :| OccursAt(s, p, pat);
      if p > 0 {
        OccursInSuffix(s, 1, p - 1, pat);
      }
    }
    if Contains(s[1..], pat) {
      var p :| OccursAt(s[1..], p, pat);
      OccursInSuffix(s, 1, p, pat);
    }
  }

  // ---------------------------------------------------------------- inline namespaces

  /** A pattern that starts with a mark found nowhere else in it, and a replacement that is a start of it. */
  predicate Marked(pat: string, rep: string) {
    rep != "" && rep <= pat && forall i :: 0 < i < |pat| ==> pat[i] != pat[0]
  }

  lemma MarkedSettles(pat: string, rep: string)
    requires Marked(pat, rep)
    ensures Settles(pat, rep)
  {
    ShorterSettles(pat, rep);
  }

  lemma {:induction false} FoldedCopies(x: string, rest: string, pat: string, rep: string)
    requires Marked(pat, rep) && pat[0] !in x
    ensures Settles(pat, rep) && Folded(x + rest, pat, rep) == x + Folded(rest, pat, rep)
  {
    hide Folded;
    MarkedSettles(pat, rep);
    if x == "" {
      assert x + rest == rest;
    } else {
      FoldedCopies(x[1..], rest, pat, rep);
      FoldedAtOther(x + rest, pat, rep);
      assert (x + rest)[1..] == x[1..] + rest;
      Regroup([x[0]], x[1..], Folded(rest, pat, rep));
    }
  }

  lemma FoldedAtPattern(s: string, pat: string, rep: string)
    requires Marked(pat, rep) && pat <= s
    ensures Settles(pat, rep) && Folded(s, pat, rep) == rep + Folded(s[|pat|..], pat, rep)
  {
    hide Folded;
    MarkedSettles(pat, rep);
    FoldedStep(s, pat, rep);
    var rest := s[|pat|..];
    assert (rep + rest)[1..] == rep[1..] + rest;
    assert Folded(s, pat, rep) == [rep[0]] + Folded(rep[1..] + rest, pat, rep);
    FoldedCopies(rep[1..], rest, pat, rep);
    Regroup([rep[0]], rep[1..], Folded(rest, pat, rep));
    assert [rep[0]] + rep[1..] == rep;
  }

  lemma FoldedAtOther(s: string, pat: string, rep: string)
    requires Marked(pat, rep) && s != "" && s[0] != pat[0]
    ensures Settles(pat, rep) && Folded(s, pat, rep) == [s[0]] + Folded(s[1..], pat, rep)
  {
    MarkedSettles(pat, rep);
    FoldedStep(s, pat, rep);
  }

  /** For such a pair, looking again after one character finds nothing more than plain replacement. */
  lemma {:induction false} FoldingMarkedIsSubstituting(s: string, pat: string, rep: string)
    requires Marked(pat, rep)
    ensures Settles(pat, rep) && Folded(s, pat, rep) == Substituted(s, pat, rep)
    decreases |s|
  {
    MarkedSettles(pat, rep);
    FoldedStep(s, pat, rep);
    if pat <= s {
      hide Folded, Substituted;
      var rest := s[|pat|..];
      FoldingMarkedIsSubstituting(rest, pat, rep);
      FoldedAtPattern(s, pat, rep);
      SubstitutedHere(s, pat, rep);
    } else if s != "" {
      FoldingMarkedIsSubstituting(s[1..], pat, rep);
    }
  }

  lemma {:induction false} UnmarkedStartIsCopied(s: string, q: string, pat: string, rep: string)
    requires Marked(pat, rep) && pat[0] !in q
    ensures q <= Substituted(s, pat, rep) <==> q <= s
    decreases |q|
  {
    if q == "" || s == "" {
    } else if pat <= s {
      StartStep(q, s);
      StartStep(q, Substituted(s, pat, rep));
      assert Substituted(s, pat, rep)[0] == pat[0] == s[0] != q[0];
    } else {
      UnmarkedStartIsCopied(s[1..], q[1..], pat, rep);
      StartStep(q, s);
      StartStep(q, Substituted(s, pat, rep));
      assert Substituted(s, pat, rep)[1..] == Substituted(s[1..], pat, rep);
    }
  }

  lemma StartStep(q: string, s: string)
    requires q != "" && s != ""
    ensures q <= s <==> q[0] == s[0] && q[1..] <= s[1..]
  {
  }

  lemma {:induction false} ContainsAfterUnmarked(x: string, rest: string, pat: string)
    requires pat != "" && pat[0] !in x
    ensures Contains(x + rest, pat) <==> Contains(rest, pat)
  {
    if x == "" {
      assert x + rest == rest;
    } else {
      ContainsAfterUnmarked(x[1..], rest, pat);
      ContainsStep(x + rest, pat);
      assert (x + rest)[1..] == x[1..] + rest;
    }
  }

  /** One pass leaves an occurrence exactly if the text had one followed by what the replacement drops. */
  lemma {:induction false} WhatSubstitutingLeaves(s: string, pat: string, rep: string)
    requires Marked(pat, rep)
    ensures Contains(Substituted(s, pat, rep), pat) <==> Contains(s, pat + pat[|rep|..])
    decreases |s|
  {
    var dropped := pat[|rep|..];
    if pat <= s {
      var rest := s[|pat|..];
      WhatSubstitutingLeaves(rest, pat, rep);
      UnmarkedStartIsCopied(rest, dropped, pat, rep);
      ContainsInReplacement(Substituted(rest, pat, rep), pat, rep);
      ContainsInPattern(rest, pat, dropped);
      assert s == pat + rest;
    } else if s != "" {
      WhatSubstitutingLeaves(s[1..], pat, rep);
      UnmarkedStartIsCopied(s[1..], pat[1..], pat, rep);
      ContainsStep(s, pat + dropped);
      ContainsStep(Substituted(s, pat, rep), pat);
      StartStep(pat, s);
      StartStep(pat, Substituted(s, pat, rep));
      assert Substituted(s, pat, rep)[1..] == Substituted(s[1..], pat, rep);
      assert pat <= pat + dropped;
    }
  }

  lemma ContainsInReplacement(rest: string, pat: string, rep: string)
    requires Marked(pat, rep)
    ensures Contains(rep + rest, pat) <==> pat[|rep|..] <= rest || Contains(rest, pat)
  {
    ContainsStep(rep + rest, pat);
    assert (rep + rest)[1..] == rep[1..] + rest;
    ContainsAfterUnmarked(rep[1..], rest, pat);
    SharedStart(rep, pat[|rep|..], rest);
    assert rep + pat[|rep|..] == pat;
  }

  lemma ContainsInPattern(rest: string, pat: string, dropped: string)
    requires pat != "" && forall i :: 0 < i < |pat| ==> pat[i] != pat[0]
    ensures Contains(pat + rest, pat + dropped) <==> dropped <= rest || Contains(rest, pat + dropped)
  {
    ContainsStep(pat + rest, pat + dropped);
    assert (pat + rest)[1..] == pat[1..] + rest;
    ContainsAfterUnmarked(pat[1..], rest, pat + dropped);
    SharedStart(pat, dropped, rest);
  }

  lemma SharedStart(x: string, a: string, b: string)
    ensures x + a <= x + b <==> a <= b
  {
    if x + a <= x + b {
      assert (x + b)[..|x| + |a|][|x|..] == b[..|a|];
    }
  }

  /** The pair for the dual ABI of libstdc++: when one pass is not enough. */
  lemma InlineNamespaceFolding(s: string)
    ensures Settles("std::__cxx11::", "std::")
    ensures Contains(Folded(s, "std::__cxx11::", "std::"), "std::__cxx11::") <==> Contains(s, "std::__cxx11::__cxx11::")
  {
    var pat, rep := "std::__cxx11::", "std::";
    assert pat[|rep|..] == "__cxx11::" && pat + "__cxx11::" == "std::__cxx11::__cxx11::";
    FoldingMarkedIsSubstituting(s, pat, rep);
    WhatSubstitutingLeaves(s, pat, rep);
  }
}
