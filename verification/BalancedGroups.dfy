/** Where the parser's balanced groups end, told by counting. A group of `(`, `[` or `{` counts tokens, and
    a template argument list counts items: tokens, whole groups of another kind, and operator names. */
module BalancedGroups {
  import opened Wrappers
  import opened SymbolLexer
  import opened SymbolGrammar

  // ---------------------------------------------------------------- the pieces of a group

  /** A piece closes a group (1), opens one (-1) or does neither; then the text goes on. */
  datatype Piece = Piece(weight: int, after: State)

  function Weight(t: Token, opening: string): int
    requires IsOpening(opening)
  {
    match RoleOf(t, opening)
    case Opener => -1
    case Closer => 1
    case _ => 0
  }

  /** The token at the front and what is left after it. */
  function TokenAt(st: State, opening: string): (r: Result<Option<Piece>, ParseError>)
    requires IsOpening(opening)
    ensures r.Ok? && r.value.Some? ==> |r.value.value.after.rest| < |st.rest| && r.value.value.weight <= 1
  {
    var next :- Lex(st.rest);
    if next.None? then Ok(None) else Ok(Some(Piece(Weight(next.value, opening), Take(st, next.value))))
  }

  /** The item at the front of a list: `operator` with its punctuation, or else with the word after it; a
      group of another kind with its closer; or a token, where `>>` is two. */
  function ItemAt(st: State): (r: Result<Option<Piece>, ParseError>)
    ensures r.Ok? && r.value.Some? ==> |r.value.value.after.rest| < |st.rest| && r.value.value.weight <= 1
  {
    var (isOperator, st1) :- OperatorInList(st);
    if isOperator then Ok(Some(Piece(0, st1)))
    else
      var next :- LexIn(st1.rest, true);
      if next.None? then Ok(if st1 == st then None else Some(Piece(0, st1)))
      else
        var t, st2 := next.value, Take(st1, next.value);
        if RoleOf(t, "<").NestedGroup? then
          var st3 :- Balanced(st2, t.str, 1);
          Ok(Some(Piece(0, st3)))
        else Ok(Some(Piece(Weight(t, "<"), st2)))
  }

  function PieceAt(st: State, opening: string): (r: Result<Option<Piece>, ParseError>)
    requires IsOpening(opening)
    ensures r.Ok? && r.value.Some? ==> |r.value.value.after.rest| < |st.rest| && r.value.value.weight <= 1
  {
    if opening == "<" then ItemAt(st) else TokenAt(st, opening)
  }

  /** The weights of the pieces of a text, up to its end or to where it cannot be read. */
  ghost function Pieces(st: State, opening: string): seq<int>
    requires IsOpening(opening)
    decreases |st.rest|
  {
    match PieceAt(st, opening)
    case Ok(Some(Piece(w, st1))) => [w] + Pieces(st1, opening)
    case _ => []
  }

  ghost function AfterPieces(st: State, opening: string, k: nat): State
    requires IsOpening(opening) && k <= |Pieces(st, opening)|
    decreases k
  {
    if k == 0 then st else AfterPieces(PieceAt(st, opening).value.value.after, opening, k - 1)
  }

  /** The whole text can be read in pieces. */
  ghost predicate Reads(st: State, opening: string)
    requires IsOpening(opening)
    decreases |st.rest|
  {
    match PieceAt(st, opening)
    case Ok(Some(Piece(_, st1))) => Reads(st1, opening)
    case Ok(None) => true
    case Err(_) => false
  }

  // ---------------------------------------------------------------- counting

  ghost function Sum(weights: seq<int>): int {
    if weights == [] then 0 else weights[0] + Sum(weights[1..])
  }

  /** With depth openers before it, the group is closed after k pieces and no sooner. */
  ghost predicate ClosesAt(weights: seq<int>, depth: nat, k: nat) {
    && k <= |weights| && Sum(weights[..k]) == depth
    && forall m :: 0 <= m < k ==> Sum(weights[..m]) < depth
  }

  ghost predicate NeverCloses(weights: seq<int>, depth: nat) {
    forall m :: 0 <= m <= |weights| ==> Sum(weights[..m]) < depth
  }

  lemma SumOneMore(w: int, weights: seq<int>, m: nat)
    requires m <= |weights|
    ensures Sum(([w] + weights)[..m + 1]) == w + Sum(weights[..m])
  {
    assert ([w] + weights)[..m + 1] == [w] + weights[..m];
  }

  lemma ClosingShifted(w: int, weights: seq<int>, depth: nat, depth': nat, k: nat)
    requires depth > 0 && depth' == depth - w && k <= |weights|
    ensures ClosesAt([w] + weights, depth, k + 1) <==> ClosesAt(weights, depth', k)
    ensures NeverCloses([w] + weights, depth) <==> NeverCloses(weights, depth')
  {
    var all := [w] + weights;
    assert all[..0] == [] && Sum([]) == 0;
    hide Sum;
    forall m: nat | m <= |weights|
      ensures Sum(all[..m + 1]) == w + Sum(weights[..m])
    {
      SumOneMore(w, weights, m);
    }
    forall m: nat | m < |all|
      ensures Sum(all[..m + 1]) == w + Sum(weights[..m])
    {
    }
    NeverShifted(w, weights, depth, depth', k);
    NeverShifted(w, weights, depth, depth', |weights| + 1);
  }

  /** Below the depth before piece k + 1 of the one, and before piece k of the other. */
  lemma NeverShifted(w: int, weights: seq<int>, depth: nat, depth': nat, k: nat)
    requires depth > 0 && depth' == depth - w && k <= |weights| + 1
    ensures (forall m :: 0 <= m < k + 1 && m <= |weights| + 1 ==> Sum(([w] + weights)[..m]) < depth)
       <==> (forall m :: 0 <= m < k ==> Sum(weights[..m]) < depth')
  {
    var all := [w] + weights;
    assert all[..0] == [] && Sum([]) == 0;
    hide Sum;
    forall m: nat | m < k
      ensures Sum(all[..m + 1]) < depth <==> Sum(weights[..m]) < depth'
    {
      SumOneMore(w, weights, m);
    }
    if forall m :: 0 <= m < k ==> Sum(weights[..m]) < depth' {
      forall m | 0 <= m < k + 1 && m <= |all|
        ensures Sum(all[..m]) < depth
      {
        assert m > 0 ==> Sum(weights[..m - 1]) < depth';
      }
    }
    if forall m :: 0 <= m < k + 1 && m <= |weights| + 1 ==> Sum(all[..m]) < depth {
      forall m | 0 <= m < k
        ensures Sum(weights[..m]) < depth'
      {
        assert Sum(all[..m + 1]) < depth;
      }
    }
  }

  // ---------------------------------------------------------------- where a group ends

  /** What a group read to the rest after k pieces is. */
  ghost predicate EndsAfter(st: State, opening: string, depth: nat, k: nat)
    requires IsOpening(opening)
  {
    var pieces := Pieces(st, opening);
    && k <= |pieces|
    && match Balanced(st, opening, depth)
       case Ok(end) =>
         && end == AfterPieces(st, opening, k)
         && (ClosesAt(pieces, depth, k) || (k == |pieces| && Reads(st, opening) && NeverCloses(pieces, depth)))
       case Err(_) => !Reads(st, opening) && NeverCloses(pieces, depth)
  }

  /** A group ends just behind the first piece with which closers outnumber the openers, or with the text. It
      cannot be read exactly if the text before that cannot. */
  lemma {:induction false} GroupEndsAtFirstExcess(st: State, opening: string, depth: nat) returns (k: nat)
    requires IsOpening(opening)
    ensures EndsAfter(st, opening, depth, k)
    decreases |st.rest|
  {
    hide *;
    var piece := PieceAt(st, opening);
    if depth > 0 && piece.Ok? && piece.value.Some? {
      var front := piece.value.value;
      var k' := GroupEndsAtFirstExcess(front.after, opening, depth - front.weight);
      OnePieceLater(st, opening, depth, front, k');
      k := k' + 1;
    } else {
      k := 0;
      GroupEndsHere(st, opening, depth);
    }
  }

  /** How a group goes on after the piece at the front. */
  ghost function GoesOn(st: State, opening: string, depth: nat): Result<State, ParseError>
    requires IsOpening(opening) && depth > 0
  {
    var piece :- PieceAt(st, opening);
    if piece.None? then Ok(st) else Balanced(piece.value.after, opening, depth - piece.value.weight)
  }

  /** One turn of the loop takes one piece. */
  lemma OnePiece(st: State, opening: string, depth: nat)
    requires IsOpening(opening) && depth > 0
    ensures Balanced(st, opening, depth) == GoesOn(st, opening, depth)
  {
    if opening == "<" {
      OneItem(st, depth);
    } else {
      OneToken(st, opening, depth);
    }
  }

  lemma OneToken(st: State, opening: string, depth: nat)
    requires IsOpening(opening) && opening != "<" && depth > 0
    ensures Balanced(st, opening, depth) == GoesOn(st, opening, depth)
  {
    hide Lex, AfterToken, ItemAt;
  }

  lemma OneItem(st: State, depth: nat)
    requires depth > 0
    ensures Balanced(st, "<", depth) == GoesOn(st, "<", depth)
  {
    hide Lex, LexIn, AfterToken, OperatorPunctuation, TokenAt;
  }

  lemma GroupEndsHere(st: State, opening: string, depth: nat)
    requires IsOpening(opening)
    requires depth == 0 || PieceAt(st, opening).Err? || PieceAt(st, opening).value.None?
    ensures EndsAfter(st, opening, depth, 0)
  {
    hide PieceAt;
    assert Pieces(st, opening)[..0] == [] && Sum([]) == 0;
    hide Sum;
    if depth == 0 {
      assert Balanced(st, opening, 0) == Ok(st);
      assert ClosesAt(Pieces(st, opening), 0, 0);
    } else {
      OnePiece(st, opening, depth);
      assert Pieces(st, opening) == [];
    }
  }

  lemma OnePieceLater(st: State, opening: string, depth: nat, p: Piece, k: nat)
    requires IsOpening(opening) && depth > 0 && PieceAt(st, opening) == Ok(Some(p)) && p.weight <= 1
    requires EndsAfter(p.after, opening, depth - p.weight, k)
    ensures EndsAfter(st, opening, depth, k + 1)
  {
    hide PieceAt, Balanced, IsOpening, Sum, ClosesAt, NeverCloses, Pieces, Reads, AfterPieces;
    OnePiece(st, opening, depth);
    PiecesAfterOne(st, opening, p, k);
    ClosingShifted(p.weight, Pieces(p.after, opening), depth, depth - p.weight, k);
  }

  lemma PiecesAfterOne(st: State, opening: string, p: Piece, k: nat)
    requires IsOpening(opening) && PieceAt(st, opening) == Ok(Some(p)) && k <= |Pieces(p.after, opening)|
    ensures Pieces(st, opening) == [p.weight] + Pieces(p.after, opening)
    ensures Reads(st, opening) == Reads(p.after, opening)
    ensures AfterPieces(st, opening, k + 1) == AfterPieces(p.after, opening, k)
  {
    hide PieceAt, IsOpening;
  }

  // ---------------------------------------------------------------- groups inside a list

  /** In a template argument list a group of another kind is one item, which ends behind the token that
      closes it; no `>` in it can close the list. */
  lemma NestedGroupIsOneItem(st: State, opening: string) returns (k: nat)
    requires IsOpening(opening) && opening != "<" && Lex(st.rest) == Ok(Some(Punct(opening)))
    requires Balanced(Take(st, Punct(opening)), opening, 1).Ok?
    ensures EndsAfter(Take(st, Punct(opening)), opening, 1, k)
    ensures ItemAt(st) == Ok(Some(Piece(0, AfterPieces(Take(st, Punct(opening)), opening, k))))
  {
    k := GroupEndsAtFirstExcess(Take(st, Punct(opening)), opening, 1);
    hide Lex, AfterToken, Pieces, AfterPieces, ClosesAt, NeverCloses, OperatorPunctuation, Reads;
    assert OperatorInList(st) == Ok((false, st));
    assert RoleOf(Punct(opening), "<") == NestedGroup;
  }
}
