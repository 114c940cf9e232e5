/** Text replacement in place, as src/utils/replace_all.cpp does it. */
module ReplaceAll {
  import opened Wrappers

  // ---------------------------------------------------------------- occurrences

  predicate OccursAt(s: string, p: int, pat: string) {
    0 <= p && p + |pat| <= |s| && s[p..p + |pat|] == pat
  }

  ghost predicate Contains(s: string, pat: string) {
    exists p :: OccursAt(s, p, pat)
  }

  /** std::string::find. */
  method Find(s: string, pat: string, pos: nat) returns (r: Option<nat>)
    ensures r.None? ==> forall p :: pos <= p ==> !OccursAt(s, p, pat)
    ensures r.Some? ==> pos <= r.value && OccursAt(s, r.value, pat) && forall p :: pos <= p < r.value ==> !OccursAt(s, p, pat)
  {
    var i := pos;
    while i + |pat| <= |s|
      invariant pos <= i && forall p :: pos <= p < i ==> !OccursAt(s, p, pat)
      decreases |s| - i
    {
      if s[i..i + |pat|] == pat {
        return Some(i);
      }
      i := i + 1;
    }
    return None;
  }

  function Replaced(s: string, p: nat, n: nat, rep: string): string
    requires p + n <= |s|
  {
    s[..p] + (rep + s[p + n..])
  }

  lemma ReplacedLength(s: string, p: nat, pat: string, rep: string)
    requires OccursAt(s, p, pat)
    ensures p + |pat| <= |s| && |Replaced(s, p, |pat|, rep)| == |s| - |pat| + |rep|
  {
  }

  lemma Regroup(a: string, b: string, c: string)
    ensures (a + b) + c == a + (b + c)
  {
  }

  // ---------------------------------------------------------------- replace_all

  /** Every occurrence, taken from the left without overlaps, becomes the replacement. */
  function Substituted(s: string, pat: string, rep: string): string
    requires pat != ""
    decreases |s|
  {
    if pat <= s then rep + Substituted(s[|pat|..], pat, rep)
    else if s == "" then ""
    else [s[0]] + Substituted(s[1..], pat, rep)
  }

  method ReplaceAllSubstrings(s: string, pat: string, rep: string) returns (str: string)
    requires pat != ""
    ensures str == Substituted(s, pat, rep)
  {
    hide Substituted;
    str := s;
    var pos := 0;
    assert str[0..] == str && str[..0] + Substituted(str, pat, rep) == Substituted(s, pat, rep);
    while true
      invariant pos <= |str|
      invariant str[..pos] + Substituted(str[pos..], pat, rep) == Substituted(s, pat, rep)
      decreases |str| - pos
    {
      var found := Find(str, pat, pos);
      if found.None? {
        NoneInSuffix(str, pos, pat);
        NothingToSubstitute(str[pos..], pat, rep);
        break;
      }
      ghost var p := found.value;
      SubstitutedUpTo(str, pos, p, pat, rep);
      SubstitutedHere(str[p..], pat, rep);
      Regroup(str[..p], rep, Substituted(str[p + |pat|..], pat, rep));
      ghost var before := str;
      str := Replaced(str, found.value, |pat|, rep);
      pos := found.value + |rep|;
      assert str[..pos] == before[..p] + rep && str[pos..] == before[p + |pat|..] && before[p..][|pat|..] == before[p + |pat|..];
    }
    assert str[..pos] + str[pos..] == str;
  }

  lemma SubstitutedHere(s: string, pat: string, rep: string)
    requires pat != "" && pat <= s
    ensures Substituted(s, pat, rep) == rep + Substituted(s[|pat|..], pat, rep)
  {
  }

  lemma {:induction false} NothingToSubstitute(s: string, pat: string, rep: string)
    requires pat != "" && forall p :: 0 <= p ==> !OccursAt(s, p, pat)
    ensures Substituted(s, pat, rep) == s
  {
    if s != "" {
      NotAtStart(s, pat);
      NoneInSuffix(s, 1, pat);
      NothingToSubstitute(s[1..], pat, rep);
    }
  }

  lemma NotAtStart(s: string, pat: string)
    ensures OccursAt(s, 0, pat) <==> pat <= s
  {
    if pat <= s {
      assert s[0..|pat|] == pat;
    }
  }

  lemma OccursInSuffix(s: string, pos: nat, p: nat, pat: string)
    requires pos <= |s|
    ensures OccursAt(s[pos..], p, pat) <==> OccursAt(s, pos + p, pat)
  {
    if pos + p + |pat| <= |s| {
      assert s[pos..][p..p + |pat|] == s[pos + p..pos + p + |pat|];
    }
  }

  lemma NoneInSuffix(s: string, pos: nat, pat: string)
    requires pos <= |s| && forall p :: pos <= p ==> !OccursAt(s, p, pat)
    ensures forall p :: 0 <= p ==> !OccursAt(s[pos..], p, pat)
  {
    forall p | 0 <= p
      ensures !OccursAt(s[pos..], p, pat)
    {
      OccursInSuffix(s, pos, p, pat);
    }
  }

  lemma {:induction false} SubstitutedUpTo(s: string, pos: nat, p: nat, pat: string, rep: string)
    requires pat != "" && pos <= p <= |s|
    requires forall q :: pos <= q < p ==> !OccursAt(s, q, pat)
    ensures s[..pos] + Substituted(s[pos..], pat, rep) == s[..p] + Substituted(s[p..], pat, rep)
    decreases p - pos
  {
    if pos < p {
      SubstitutedUpTo(s, pos + 1, p, pat, rep);
      OccursInSuffix(s, pos, 0, pat);
      NotAtStart(s[pos..], pat);
      assert s[pos..][1..] == s[pos + 1..] && s[..pos + 1] == s[..pos] + [s[pos]];
      Regroup(s[..pos], [s[pos]], Substituted(s[pos + 1..], pat, rep));
    }
  }

  /** Pieces with a text between them. */
  function Joined(pieces: seq<string>, between: string): string {
    if pieces == [] then "" else pieces[0] + if |pieces| == 1 then "" else between + Joined(pieces[1..], between)
  }

  /** With the pattern behind it, the piece has no other occurrence of it. */
  ghost predicate IsPiece(piece: string, pat: string) {
    forall p :: 0 <= p < |piece| ==> !OccursAt(piece + pat, p, pat)
  }

  /** The last piece has nothing behind it. */
  ghost predicate ArePieces(pieces: seq<string>, pat: string) {
    && pieces != [] && !Contains(pieces[|pieces| - 1], pat)
    && forall i :: 0 <= i < |pieces| - 1 ==> IsPiece(pieces[i], pat)
  }

  lemma OccursInLonger(s: string, r: string, p: nat, pat: string)
    requires p + |pat| <= |s|
    ensures OccursAt(s + r, p, pat) <==> OccursAt(s, p, pat)
  {
    assert (s + r)[p..p + |pat|] == s[p..p + |pat|];
  }

  /** What the pattern stands between, the replacement then stands between, and nothing else changes. */
  lemma {:induction false} PiecesStay(pieces: seq<string>, pat: string, rep: string)
    requires pat != "" && ArePieces(pieces, pat)
    ensures Substituted(Joined(pieces, pat), pat, rep) == Joined(pieces, rep)
  {
    hide Substituted;
    var s := Joined(pieces, pat);
    if |pieces| == 1 {
      assert s == pieces[0] && Joined(pieces, rep) == pieces[0];
      NothingToSubstitute(s, pat, rep);
    } else {
      var n, rest := |pieces[0]|, Joined(pieces[1..], pat);
      PiecesStay(pieces[1..], pat, rep);
      Regroup(pieces[0], pat, rest);
      forall q | 0 <= q < n
        ensures !OccursAt(s, q, pat)
      {
        assert IsPiece(pieces[0], pat);
        OccursInLonger(pieces[0] + pat, rest, q, pat);
      }
      SubstitutedUpTo(s, 0, n, pat, rep);
      assert s[0..] == s && s[..0] == "" && s[..n] == pieces[0] && s[n..] == pat + rest;
      SubstitutedHere(s[n..], pat, rep);
      assert s[n..][|pat|..] == rest;
    }
  }

  // ---------------------------------------------------------------- replace_all_dynamic

  /** A replacement brings no occurrence of its own behind its first character. */
  ghost predicate Settles(pat: string, rep: string) {
    pat != "" && (rep == "" || !Contains(rep[1..], pat))
  }

  lemma ShorterSettles(pat: string, rep: string)
    requires pat != "" && |rep| <= |pat|
    ensures Settles(pat, rep)
  {
    ShortContainsNone(if rep == "" then "" else rep[1..], pat);
  }

  lemma ShortContainsNone(s: string, pat: string)
    requires |s| < |pat|
    ensures !Contains(s, pat)
  {
  }

  lemma ContainsInTail(s: string, pat: string)
    requires s != ""
    ensures Contains(s[1..], pat) ==> Contains(s, pat)
  {
    if Contains(s[1..], pat) {
      var p :| OccursAt(s[1..], p, pat);
      OccursInSuffix(s, 1, p, pat);
      assert OccursAt(s, p + 1, pat);
    }
  }

  /** Looks again one character after each replacement, so that what it creates can match. What the last
      replacement left is in front of the text that is still to come. */
  function FoldedFrom(left: string, s: string, pat: string, rep: string): string
    requires Settles(pat, rep) && !Contains(left, pat)
    decreases |s|, |left|
  {
    if pat <= left + s then
      NotInLeft(left, s, pat);
      var rest := s[|pat| - |left|..];
      if rep != "" then [rep[0]] + FoldedFrom(rep[1..], rest, pat, rep)
      else if rest == "" then ""
      else
        ShortContainsNone("", pat);
        [rest[0]] + FoldedFrom("", rest[1..], pat, rep)
    else if left != "" then
      ContainsInTail(left, pat);
      [left[0]] + FoldedFrom(left[1..], s, pat, rep)
    else if s == "" then ""
    else [s[0]] + FoldedFrom("", s[1..], pat, rep)
  }

  lemma NotInLeft(left: string, s: string, pat: string)
    requires !Contains(left, pat) && pat <= left + s
    ensures |left| < |pat| <= |left| + |s|
  {
    if |left| >= |pat| {
      assert left[0..|pat|] == (left + s)[..|pat|];
      assert OccursAt(left, 0, pat);
    }
  }

  function Folded(s: string, pat: string, rep: string): string
    requires Settles(pat, rep)
  {
    ShortContainsNone("", pat);
    FoldedFrom("", s, pat, rep)
  }

  /** How the text is split does not matter. */
  lemma {:induction false} FoldedTogether(left: string, s: string, pat: string, rep: string)
    requires Settles(pat, rep) && !Contains(left, pat)
    ensures FoldedFrom(left, s, pat, rep) == Folded(left + s, pat, rep)
    decreases |left|
  {
    ShortContainsNone("", pat);
    assert "" + (left + s) == left + s;
    if pat <= left + s {
      NotInLeft(left, s, pat);
      assert s[|pat| - |left|..] == (left + s)[|pat|..];
    } else if left != "" {
      ContainsInTail(left, pat);
      FoldedTogether(left[1..], s, pat, rep);
      assert left[1..] + s == (left + s)[1..];
    } else {
      assert left + s == s;
    }
  }

  lemma FoldedStep(s: string, pat: string, rep: string)
    requires Settles(pat, rep)
    ensures var t := if pat <= s then rep + s[|pat|..] else s;
            Folded(s, pat, rep) == if t == "" then "" else [t[0]] + Folded(t[1..], pat, rep)
  {
    ShortContainsNone("", pat);
    assert "" + s == s;
    if pat <= s && rep != "" {
      FoldedTogether(rep[1..], s[|pat|..], pat, rep);
      assert (rep + s[|pat|..])[1..] == rep[1..] + s[|pat|..];
    } else if pat <= s {
      assert rep + s[|pat|..] == s[|pat|..];
    }
  }

  /** The loop ends on every text exactly if the pair settles; otherwise it ends only if there is nothing to replace. */
  method ReplaceAllDynamic(s: string, pat: string, rep: string) returns (str: string)
    requires pat != "" && (Settles(pat, rep) || !Contains(s, pat))
    ensures str == if Settles(pat, rep) then Folded(s, pat, rep) else s
  {
    hide Folded, OccursAt, Replaced, Contains;
    str := s;
    var pos := 0;
    ghost var end := 0;
    ShortContainsNone("", pat);
    assert str[0..] == str && str[..0] == "" && str[0..0] == "";
    assert Settles(pat, rep) ==> str[..0] + Folded(str, pat, rep) == Folded(s, pat, rep);
    while true
      invariant 0 <= pos <= |str| + 1 && 0 <= end <= |str|
      invariant !Settles(pat, rep) ==> str == s && pos == 0
      invariant Settles(pat, rep) && pos <= |str| ==> str[..pos] + Folded(str[pos..], pat, rep) == Folded(s, pat, rep)
      invariant Settles(pat, rep) && pos > |str| ==> str == Folded(s, pat, rep)
      invariant pos <= end ==> !Contains(str[pos..end], pat)
      decreases |str| - end
    {
      var found := Find(str, pat, pos);
      if found.None? {
        if Settles(pat, rep) && pos <= |str| {
          NoneInSuffix(str, pos, pat);
          NothingToFold(str[pos..], pat, rep);
          assert str[..pos] + str[pos..] == str;
        }
        break;
      }
      SettlesHere(str, found.value, pat, rep);
      FoldedNext(str, pos, found.value, pat, rep);
      ReplacedLength(str, found.value, pat, rep);
      EndMoves(str, pos, end, found.value, pat, rep);
      str := Replaced(str, found.value, |pat|, rep);
      pos := found.value + 1;
      end := found.value + |rep|;
    }
  }

  lemma {:induction false} NothingToFold(s: string, pat: string, rep: string)
    requires Settles(pat, rep) && forall p :: 0 <= p ==> !OccursAt(s, p, pat)
    ensures Folded(s, pat, rep) == s
  {
    hide Folded;
    FoldedStep(s, pat, rep);
    NotAtStart(s, pat);
    if s != "" {
      NoneInSuffix(s, 1, pat);
      NothingToFold(s[1..], pat, rep);
    }
  }

  lemma SettlesHere(s: string, p: nat, pat: string, rep: string)
    requires OccursAt(s, p, pat) && (Settles(pat, rep) || !Contains(s, pat))
    ensures Settles(pat, rep)
  {
  }

  lemma OccursInSlice(s: string, pos: nat, end: nat, p: nat, pat: string)
    requires pos <= p && OccursAt(s, p, pat) && end <= |s|
    ensures p + |pat| <= end ==> Contains(s[pos..end], pat)
  {
    if p + |pat| <= end {
      var slice, i := s[pos..end], p - pos;
      forall k | 0 <= k < |pat|
        ensures slice[i..i + |pat|][k] == pat[k]
      {
        assert s[p..p + |pat|][k] == s[p + k] == slice[i + k];
      }
      assert OccursAt(slice, p - pos, pat);
    }
  }

  /** The next occurrence goes past what the last replacement left. */
  lemma EndMoves(s: string, pos: nat, end: nat, p: nat, pat: string, rep: string)
    requires Settles(pat, rep) && pos <= p && OccursAt(s, p, pat) && end <= |s|
    requires pos <= end ==> !Contains(s[pos..end], pat)
    ensures end < p + |pat|
    ensures var str := Replaced(s, p, |pat|, rep);
            p + |rep| <= |str| && (rep != "" ==> str[p + 1..p + |rep|] == rep[1..] && !Contains(rep[1..], pat))
  {
    OccursInSlice(s, pos, end, p, pat);
    if rep != "" {
      assert Replaced(s, p, |pat|, rep)[p + 1..p + |rep|] == rep[1..];
    }
  }

  /** For any other pair a replacement always leaves something more to replace. */
  lemma ReplacingGoesOn(s: string, p: nat, pat: string, rep: string)
    requires pat != "" && !Settles(pat, rep) && OccursAt(s, p, pat)
    ensures exists q :: p + 1 <= q && OccursAt(Replaced(s, p, |pat|, rep), q, pat)
  {
    var i :| OccursAt(rep[1..], i, pat);
    var str := Replaced(s, p, |pat|, rep);
    assert str[p + 1 + i..p + 1 + i + |pat|] == rep[1..][i..i + |pat|];
    assert OccursAt(str, p + 1 + i, pat);
  }

  lemma {:induction false} FoldedUpTo(s: string, pos: nat, p: nat, pat: string, rep: string)
    requires Settles(pat, rep) && pos <= p <= |s|
    requires forall q :: pos <= q < p ==> !OccursAt(s, q, pat)
    ensures s[..pos] + Folded(s[pos..], pat, rep) == s[..p] + Folded(s[p..], pat, rep)
    decreases p - pos
  {
    hide Folded;
    if pos < p {
      FoldedUpTo(s, pos + 1, p, pat, rep);
      FoldedStep(s[pos..], pat, rep);
      OccursInSuffix(s, pos, 0, pat);
      NotAtStart(s[pos..], pat);
      assert s[pos..][1..] == s[pos + 1..] && s[..pos + 1] == s[..pos] + [s[pos]];
      Regroup(s[..pos], [s[pos]], Folded(s[pos + 1..], pat, rep));
    }
  }

  lemma FoldedNext(s: string, pos: nat, p: nat, pat: string, rep: string)
    requires Settles(pat, rep) && pos <= p && OccursAt(s, p, pat)
    requires forall q :: pos <= q < p ==> !OccursAt(s, q, pat)
    ensures var str := Replaced(s, p, |pat|, rep);
            s[..pos] + Folded(s[pos..], pat, rep)
            == if p + 1 <= |str| then str[..p + 1] + Folded(str[p + 1..], pat, rep) else str
  {
    hide Folded;
    FoldedUpTo(s, pos, p, pat, rep);
    FoldedHere(s[..p], s[p..], pat, rep);
    assert s[p..][|pat|..] == s[p + |pat|..];
  }

  lemma FoldedHere(before: string, s: string, pat: string, rep: string)
    requires Settles(pat, rep) && pat <= s
    ensures var t := rep + s[|pat|..];
            var str, pos := before + t, |before| + 1;
            if pos <= |str| then before + Folded(s, pat, rep) == str[..pos] + Folded(str[pos..], pat, rep)
            else before + Folded(s, pat, rep) == str
  {
    hide Folded;
    FoldedStep(s, pat, rep);
    var t := rep + s[|pat|..];
    if t != "" {
      assert (before + t)[|before| + 1..] == t[1..] && (before + t)[..|before| + 1] == before + [t[0]];
      Regroup(before, [t[0]], Folded(t[1..], pat, rep));
    }
  }

  // ---------------------------------------------------------------- replace_all_template

  /** Where a regular expression matches first. */
  datatype Match = Match(pos: nat, len: nat)

  /** A search finds a non-empty part of the text it is given. */
  ghost predicate IsSearch(search: string -> Option<Match>) {
    forall t :: search(t).Some? ==> search(t).value.len > 0 && search(t).value.pos + search(t).value.len <= |t|
  }

  /** How far the scan goes when c brackets are open. */
  function ScanLength(s: string, c: nat): (n: nat)
    ensures n <= |s|
  {
    if s == "" || c == 0 then 0
    else 1 + ScanLength(s[1..], if s[0] == '<' then c + 1 else if s[0] == '>' then c - 1 else c)
  }

  /** Each match, together with the template arguments it opens, becomes the replacement. */
  function TemplatesReplaced(s: string, search: string -> Option<Match>, rep: string): string
    requires IsSearch(search)
    decreases |s|
  {
    match search(s)
    case None => s
    case Some(m) =>
      var after := s[m.pos + m.len..];
      s[..m.pos] + (rep + TemplatesReplaced(after[ScanLength(after, 1)..], search, rep))
  }

  /** Finds the bracket that closes the arguments opened before start. */
  method FindClose(str: string, start: nat) returns (end: nat)
    requires start <= |str|
    ensures end == start + ScanLength(str[start..], 1) <= |str|
  {
    end := start;
    var c := 1;
    while end < |str| && c > 0
      invariant start <= end <= |str| && 0 <= c
      invariant ScanLength(str[start..], 1) == end - start + ScanLength(str[end..], c)
    {
      assert str[end..][1..] == str[end + 1..];
      if str[end] == '<' {
        c := c + 1;
      } else if str[end] == '>' {
        c := c - 1;
      }
      end := end + 1;
    }
  }

  method ReplaceAllTemplate(s: string, search: string -> Option<Match>, rep: string) returns (str: string)
    requires IsSearch(search)
    ensures str == TemplatesReplaced(s, search, rep)
  {
    hide *;
    str := s;
    var cursor := 0;
    assert str[0..] == str && str[..0] + TemplatesReplaced(str, search, rep) == TemplatesReplaced(s, search, rep);
    while true
      invariant 0 <= cursor <= |str|
      invariant str[..cursor] + TemplatesReplaced(str[cursor..], search, rep) == TemplatesReplaced(s, search, rep)
      decreases |str| - cursor
    {
      var found := search(str[cursor..]);
      MatchFits(search, str[cursor..]);
      if found.None? {
        NoTemplate(str[cursor..], search, rep);
        assert str[..cursor] + str[cursor..] == str;
        break;
      }
      // how far the arguments go
      var matchBegin := cursor + found.value.pos;
      var end := FindClose(str, matchBegin + found.value.len);
      // the match, its arguments and their closer are one span
      TemplateAt(str, cursor, end, search, rep);
      str := Replaced(str, matchBegin, end - matchBegin, rep);
      cursor := matchBegin + |rep|;
    }
  }

  lemma NoTemplate(s: string, search: string -> Option<Match>, rep: string)
    requires IsSearch(search) && search(s).None?
    ensures TemplatesReplaced(s, search, rep) == s
  {
  }

  lemma TemplateAt(s: string, cursor: nat, end: nat, search: string -> Option<Match>, rep: string)
    requires cursor <= |s| && IsSearch(search) && search(s[cursor..]).Some?
    requires var m := search(s[cursor..]).value; var start := cursor + m.pos + m.len;
             end == start + ScanLength(s[start..], 1)
    ensures var p := cursor + search(s[cursor..]).value.pos;
            var str := Replaced(s, p, end - p, rep);
            && s[..cursor] + TemplatesReplaced(s[cursor..], search, rep)
               == str[..p + |rep|] + TemplatesReplaced(str[p + |rep|..], search, rep)
            && |str| == p + |rep| + |s| - end
  {
    hide *;
    var m := search(s[cursor..]).value;
    var p := cursor + m.pos;
    MatchFits(search, s[cursor..]);
    SliceOfSlice(s, cursor, m.pos + m.len);
    SliceOfSlice(s, p + m.len, end - (p + m.len));
    SliceOfSlice(s, cursor, m.pos);
    ReplacedSlices(s, p, end - p, rep);
    var tail := TemplatesReplaced(s[end..], search, rep);
    TemplateHere(s[cursor..], search, rep);
    Regroup(s[..cursor], s[cursor..p], rep + tail);
    Regroup(s[..p], rep, tail);
  }

  lemma MatchFits(search: string -> Option<Match>, t: string)
    requires IsSearch(search)
    ensures search(t).Some? ==> search(t).value.len > 0 && search(t).value.pos + search(t).value.len <= |t|
  {
  }

  lemma TemplateHere(s: string, search: string -> Option<Match>, rep: string)
    requires IsSearch(search) && search(s).Some?
    ensures var m := search(s).value;
            && m.pos + m.len <= |s|
            && var after := s[m.pos + m.len..];
            TemplatesReplaced(s, search, rep) == s[..m.pos] + (rep + TemplatesReplaced(after[ScanLength(after, 1)..], search, rep))
  {
  }

  lemma SliceOfSlice(s: string, i: nat, j: nat)
    requires i + j <= |s|
    ensures s[i..][j..] == s[i + j..] && s[i..][..j] == s[i..i + j]
    ensures s[..i] + s[i..i + j] == s[..i + j]
  {
  }

  lemma ReplacedSlices(s: string, p: nat, n: nat, rep: string)
    requires p + n <= |s|
    ensures var r := Replaced(s, p, n, rep);
            |r| == |s| - n + |rep| && r[..p + |rep|] == s[..p] + rep && r[p + |rep|..] == s[p + n..]
  {
  }

  // ---------------------------------------------------------------- the bracket scan

  function Count(s: string, c: char): nat {
    if s == "" then 0 else (if s[0] == c then 1 else 0) + Count(s[1..], c)
  }

  /** The scan stops at the shortest start in which the closing brackets outnumber the opening ones by c;
      without one it takes the whole text. */
  lemma {:induction false} ScanIsShortest(s: string, c: nat, k: nat)
    requires k <= ScanLength(s, c)
    ensures k < ScanLength(s, c) ==> Count(s[..k], '>') < Count(s[..k], '<') + c
    ensures k == ScanLength(s, c) < |s| ==> Count(s[..k], '>') == Count(s[..k], '<') + c
  {
    if s != "" && c > 0 && k > 0 {
      ScanIsShortest(s[1..], if s[0] == '<' then c + 1 else if s[0] == '>' then c - 1 else c, k - 1);
      assert s[..k][1..] == s[1..][..k - 1];
    }
  }

  /** Text in which every bracket has its partner. */
  predicate IsNested(s: string, unclosed: nat) {
    if s == "" then unclosed == 0
    else if s[0] == '<' then IsNested(s[1..], unclosed + 1)
    else if s[0] == '>' then unclosed > 0 && IsNested(s[1..], unclosed - 1)
    else IsNested(s[1..], unclosed)
  }

  /** After nested template arguments the scan stops just behind the bracket that closes them. */
  lemma {:induction false} ScanClosesArguments(args: string, rest: string, unclosed: nat)
    requires IsNested(args, unclosed)
    ensures ScanLength(args + (">" + rest), unclosed + 1) == |args| + 1
  {
    var s := args + (">" + rest);
    if args == "" {
      assert s[1..] == rest;
    } else {
      assert s[1..] == args[1..] + (">" + rest);
      ScanClosesArguments(args[1..], rest, if args[0] == '<' then unclosed + 1 else if args[0] == '>' then unclosed - 1 else unclosed);
    }
  }

  /** So a match and the arguments it opens disappear together. */
  lemma ArgumentsAreReplaced(before: string, head: string, args: string, rest: string, search: string -> Option<Match>, rep: string)
    requires IsSearch(search) && IsNested(args, 0) && head != ""
    requires search(before + (head + (args + (">" + rest)))) == Some(Match(|before|, |head|))
    ensures TemplatesReplaced(before + (head + (args + (">" + rest))), search, rep)
         == before + (rep + TemplatesReplaced(rest, search, rep))
  {
    hide ScanLength, IsNested;
    var after := args + (">" + rest);
    Slices(before, head, after);
    Slices(args, ">", rest);
    ScanClosesArguments(args, rest, 0);
  }

  lemma Slices(a: string, b: string, c: string)
    ensures (a + (b + c))[..|a|] == a && (a + (b + c))[|a| + |b|..] == c
  {
  }
}
