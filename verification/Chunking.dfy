/** `_chunk_for_context` (backend/app/v2/preprocessing.py): a text is cut at blank lines into chunks
    that fit a byte budget. */
module Chunking {
  import opened Utf8

  const BLANK := "\n\n"

  // ---------------------------------------------------------------- blocks

  /** `text.split("\n\n")` */
  function Split(text: string): (blocks: seq<string>)
    ensures blocks != []
  {
    if text == "" then [""]
    else if BLANK <= text then [""] + Split(text[2..])
    else
      var rest := Split(text[1..]);
      [[text[0]] + rest[0]] + rest[1..]
  }

  /** `"\n\n".join(blocks)` */
  function Join(blocks: seq<string>): string {
    if blocks == [] then ""
    else if |blocks| == 1 then blocks[0]
    else blocks[0] + BLANK + Join(blocks[1..])
  }

  /** `block.rstrip("\n")` */
  function Stripped(block: string): string {
    if block != "" && block[|block| - 1] == '\n' then Stripped(block[..|block| - 1]) else block
  }

  function Pieces(text: string): (pieces: seq<string>)
    ensures pieces != []
  {
    var blocks := Split(text);
    seq(|blocks|, i requires 0 <= i < |blocks| => Stripped(blocks[i]))
  }

  // ---------------------------------------------------------------- chunks

  /** `_chunk_char_budget` */
  function ChunkBudget(contextTokens: int): nat {
    var bytes := ((contextTokens / 2) as real * 2.2).Floor;
    if bytes > 1 then bytes else 1
  }

  predicate Oversized(piece: string, budget: nat) {
    TextBytes(piece) > budget
  }

  /** What `current_len` counts. */
  function Length(pieces: seq<string>): nat {
    if pieces == [] then 0 else Length(pieces[..|pieces| - 1]) + TextBytes(pieces[|pieces| - 1]) + 2
  }

  /** The pieces of one chunk. */
  datatype Group = Group(pieces: seq<string>)

  /** The groups closed so far and the pieces of the one still open. */
  datatype Groups = Groups(closed: seq<Group>, open: seq<string>)

  predicate Flushes(groups: Groups, piece: string, budget: nat) {
    && groups.open != []
    && Length(groups.open) + TextBytes(piece) + 2 > budget
    && !Oversized(piece, budget)
  }

  function Flushed(groups: Groups, piece: string, budget: nat): Groups {
    if Flushes(groups, piece, budget) then Groups(groups.closed + [Group(groups.open)], []) else groups
  }

  function Added(groups: Groups, piece: string, budget: nat): Groups {
    var g := Flushed(groups, piece, budget);
    var open := g.open + [piece];
    if Oversized(piece, budget) then Groups(g.closed + [Group(open)], []) else Groups(g.closed, open)
  }

  function GroupsOf(pieces: seq<string>, budget: nat): Groups {
    if pieces == [] then Groups([], [])
    else Added(GroupsOf(pieces[..|pieces| - 1], budget), pieces[|pieces| - 1], budget)
  }

  function Closed(groups: Groups): seq<Group> {
    groups.closed + (if groups.open == [] then [] else [Group(groups.open)])
  }

  function Joined(groups: seq<Group>): seq<string> {
    seq(|groups|, i requires 0 <= i < |groups| => Join(groups[i].pieces))
  }

  function ChunksOf(text: string, budget: nat): seq<string> {
    Joined(Closed(GroupsOf(Pieces(text), budget)))
  }

  /** What the loop's variables hold. */
  ghost predicate Holds(groups: Groups, chunks: seq<string>, current: seq<string>, currentLength: nat) {
    groups.open == current && Length(current) == currentLength && chunks == Joined(groups.closed)
  }

  /** The loop over blocks. */
  method ChunkForContext(text: string, contextTokens: int) returns (chunks: seq<string>)
    ensures chunks == ChunksOf(text, ChunkBudget(contextTokens))
  {
    var budget := ChunkBudget(contextTokens);
    if text == "" {
      EmptyText(budget);
      return [""];
    }
    var blocks := Split(text);
    ghost var pieces := Pieces(text);
    chunks := [];
    var current: seq<string> := [];
    var currentLength: nat := 0;
    for i := 0 to |blocks|
      invariant Holds(GroupsOf(pieces[..i], budget), chunks, current, currentLength)
    {
      OneMorePiece(pieces[..i + 1], budget);
      assert pieces[..i + 1][..i] == pieces[..i];
      chunks, current, currentLength :=
        AddBlock(chunks, current, currentLength, blocks[i], budget, GroupsOf(pieces[..i], budget));
    }
    assert pieces[..|blocks|] == pieces;
    if current != [] {
      JoinedMore(GroupsOf(pieces, budget).closed, current);
      chunks := chunks + [Join(current)];
    }
  }

  method AddBlock(
    before: seq<string>, open: seq<string>, length: nat, block: string, budget: nat, ghost groups: Groups)
    returns (chunks: seq<string>, current: seq<string>, currentLength: nat)
    requires Holds(groups, before, open, length)
    ensures Holds(Added(groups, Stripped(block), budget), chunks, current, currentLength)
  {
    chunks, current, currentLength := before, open, length;
    var piece := Stripped(block);
    var pieceLength := TextBytes(piece) + 2;
    var oversized := TextBytes(piece) > budget;
    ghost var flushed := Flushed(groups, piece, budget);
    if current != [] && currentLength + pieceLength > budget && !oversized {
      JoinedMore(groups.closed, current);
      chunks := chunks + [Join(current)];
      current := [];
      currentLength := 0;
    }
    assert Holds(flushed, chunks, current, currentLength);
    LengthMore(current, piece);
    current := current + [piece];
    currentLength := currentLength + pieceLength;
    if oversized {
      JoinedMore(flushed.closed, current);
      chunks := chunks + [Join(current)];
      current := [];
      currentLength := 0;
    }
  }

  lemma JoinedMore(groups: seq<Group>, group: seq<string>)
    ensures Joined(groups + [Group(group)]) == Joined(groups) + [Join(group)]
  {
  }

  lemma LengthMore(pieces: seq<string>, piece: string)
    ensures Length(pieces + [piece]) == Length(pieces) + TextBytes(piece) + 2
  {
    assert (pieces + [piece])[..|pieces|] == pieces;
  }

  lemma EmptyText(budget: nat)
    ensures ChunksOf("", budget) == [""]
  {
    assert Pieces("") == [""];
    assert GroupsOf([""], budget) == Added(GroupsOf([""][..0], budget), "", budget);
    assert Join([""]) == "";
  }

  // ---------------------------------------------------------------- nothing is lost

  function Trailing(text: string): nat {
    if text != "" && text[|text| - 1] == '\n' then Trailing(text[..|text| - 1]) + 1 else 0
  }

  /** Joining the chunks with blank lines gives back the text, without its last newline exactly when
      the text ends in an odd run of newlines. */
  lemma ChunksJoinToTheText(text: string, budget: nat)
    ensures Join(ChunksOf(text, budget)) == if Trailing(text) % 2 == 1 then text[..|text| - 1] else text
  {
    var groups := Closed(GroupsOf(Pieces(text), budget));
    GroupsPartition(Pieces(text), budget);
    JoinOfJoins(groups);
    PiecesJoinToTheText(text);
  }

  function Concat(groups: seq<Group>): seq<string> {
    if groups == [] then [] else Concat(groups[..|groups| - 1]) + groups[|groups| - 1].pieces
  }

  predicate NoneEmpty(groups: seq<Group>) {
    forall i :: 0 <= i < |groups| ==> groups[i].pieces != []
  }

  /** All pieces of the groups, in order. */
  function Flat(groups: Groups): seq<string> {
    Concat(groups.closed) + groups.open
  }

  /** Cuts fall only between blocks: the groups are the pieces, in order, none of them empty. */
  lemma GroupsPartition(pieces: seq<string>, budget: nat)
    ensures Concat(Closed(GroupsOf(pieces, budget))) == pieces
    ensures NoneEmpty(Closed(GroupsOf(pieces, budget)))
  {
    var groups := GroupsOf(pieces, budget);
    FlatIsAll(pieces, budget);
    if groups.open == [] {
      assert Closed(groups) == groups.closed && Flat(groups) == Concat(groups.closed);
    } else {
      ConcatMore(groups.closed, groups.open);
    }
  }

  lemma {:induction false} FlatIsAll(pieces: seq<string>, budget: nat)
    ensures Flat(GroupsOf(pieces, budget)) == pieces && NoneEmpty(GroupsOf(pieces, budget).closed)
  {
    if pieces != [] {
      FlatIsAll(pieces[..|pieces| - 1], budget);
      OneMorePiece(pieces, budget);
      FlatStep(GroupsOf(pieces[..|pieces| - 1], budget), GroupsOf(pieces, budget), pieces, budget);
    }
  }

  lemma FlatStep(before: Groups, after: Groups, pieces: seq<string>, budget: nat)
    requires pieces != [] && after == Added(before, pieces[|pieces| - 1], budget)
    requires Flat(before) == pieces[..|pieces| - 1] && NoneEmpty(before.closed)
    ensures Flat(after) == pieces && NoneEmpty(after.closed)
  {
    AddedFlat(before, pieces[|pieces| - 1], budget);
    assert pieces[..|pieces| - 1] + [pieces[|pieces| - 1]] == pieces;
  }

  lemma OneMorePiece(pieces: seq<string>, budget: nat)
    requires pieces != []
    ensures GroupsOf(pieces, budget)
            == Added(GroupsOf(pieces[..|pieces| - 1], budget), pieces[|pieces| - 1], budget)
  {
  }

  lemma AddedFlat(groups: Groups, piece: string, budget: nat)
    requires NoneEmpty(groups.closed)
    ensures Flat(Added(groups, piece, budget)) == Flat(groups) + [piece]
    ensures NoneEmpty(Added(groups, piece, budget).closed)
  {
    var added := Added(groups, piece, budget);
    if Oversized(piece, budget) {
      ConcatMore(groups.closed, groups.open + [piece]);
      assert added == Groups(groups.closed + [Group(groups.open + [piece])], []);
      assert Concat(added.closed) + [] == Concat(added.closed);
    } else if Flushes(groups, piece, budget) {
      ConcatMore(groups.closed, groups.open);
      assert added == Groups(groups.closed + [Group(groups.open)], [] + [piece]);
      assert [] + [piece] == [piece];
    } else {
      assert added == Groups(groups.closed, groups.open + [piece]);
    }
  }

  lemma ConcatMore(groups: seq<Group>, group: seq<string>)
    ensures Concat(groups + [Group(group)]) == Concat(groups) + group
  {
    assert (groups + [Group(group)])[..|groups|] == groups;
  }

  lemma {:induction false} JoinAdds(a: seq<string>, b: seq<string>)
    requires a != [] && b != []
    ensures Join(a + b) == Join(a) + BLANK + Join(b)
  {
    if |a| == 1 {
      assert (a + b)[1..] == b;
    } else {
      assert (a + b)[1..] == a[1..] + b;
      JoinAdds(a[1..], b);
      assert a[0] + BLANK + (Join(a[1..]) + BLANK + Join(b)) == (a[0] + BLANK + Join(a[1..])) + BLANK + Join(b);
    }
  }

  lemma {:induction false} JoinOfJoins(groups: seq<Group>)
    requires NoneEmpty(groups)
    ensures Join(Joined(groups)) == Join(Concat(groups))
    ensures groups != [] ==> Concat(groups) != []
  {
    if groups != [] {
      var rest, last := groups[..|groups| - 1], groups[|groups| - 1];
      JoinOfJoins(rest);
      assert groups == rest + [last];
      JoinedMore(rest, last.pieces);
      if rest == [] {
        assert Concat(groups) == last.pieces && Joined(groups) == [Join(last.pieces)];
      } else {
        JoinAdds(Joined(rest), [Join(last.pieces)]);
        JoinAdds(Concat(rest), last.pieces);
      }
    }
  }

  // ---------------------------------------------------------------- splitting and stripping

  predicate Ends(text: string) {
    text != "" && text[|text| - 1] == '\n'
  }

  lemma {:induction false} SplitJoins(text: string)
    ensures Join(Split(text)) == text
  {
    if text == "" {
    } else if BLANK <= text {
      SplitJoins(text[2..]);
      JoinAdds([""], Split(text[2..]));
      assert text == BLANK + text[2..];
    } else {
      SplitJoins(text[1..]);
      JoinFront(text[0], Split(text[1..]));
      assert text == [text[0]] + text[1..];
    }
  }

  lemma JoinFront(c: char, blocks: seq<string>)
    requires blocks != []
    ensures Join([[c] + blocks[0]] + blocks[1..]) == [c] + Join(blocks)
  {
    var longer := [[c] + blocks[0]] + blocks[1..];
    if |blocks| > 1 {
      assert longer[1..] == blocks[1..];
      assert [c] + (blocks[0] + BLANK + Join(blocks[1..])) == ([c] + blocks[0]) + BLANK + Join(blocks[1..]);
    }
  }

  predicate HoldsBlank(text: string) {
    exists i :: 0 <= i < |text| - 1 && text[i] == '\n' && text[i + 1] == '\n'
  }

  /** The blocks are what stands between the blank lines, found from the left: joined they are the text,
      none holds a blank line and only the last may end in a newline. */
  lemma SplitsAtBlankLines(text: string)
    ensures Join(Split(text)) == text
    ensures forall i :: 0 <= i < |Split(text)| ==> !HoldsBlank(Split(text)[i])
    ensures forall i :: 0 <= i < |Split(text)| - 1 ==> !Ends(Split(text)[i])
  {
    SplitJoins(text);
    OnlyTheLastBlockEnds(text);
    forall i | 0 <= i < |Split(text)| ensures !HoldsBlank(Split(text)[i]) {
      NoBlankInside(text, i);
    }
  }

  lemma {:induction false} NoBlankInside(text: string, i: nat)
    requires i < |Split(text)|
    ensures !HoldsBlank(Split(text)[i])
    ensures i == 0 ==> Split(text)[0] <= text
  {
    if text == "" {
    } else if BLANK <= text {
      if i > 0 {
        NoBlankInside(text[2..], i - 1);
      }
    } else {
      var rest := Split(text[1..]);
      NotTwoNewlines(text);
      NoBlankInside(text[1..], i);
      if i == 0 {
        NoBlankInFront(text[0], rest[0], text);
      } else {
        assert Split(text)[i] == rest[i];
      }
    }
  }

  lemma NoBlankInFront(c: char, block: string, text: string)
    requires text != "" && text[0] == c && block <= text[1..] && !HoldsBlank(block)
    requires |text| < 2 || text[0] != '\n' || text[1] != '\n'
    ensures !HoldsBlank([c] + block) && [c] + block <= text
  {
    assert forall j :: 0 <= j < |block| ==> ([c] + block)[j + 1] == block[j] == text[j + 1];
  }

  /** Half the context in bytes, at 2.2 bytes a token, and at least one byte. */
  lemma ChunkBudgetMeans(contextTokens: int)
    ensures ChunkBudget(contextTokens) == if contextTokens < 2 then 1 else contextTokens / 2 * 11 / 5
  {
    var half := contextTokens / 2;
    FloorOfElevenFifths(half);
  }

  lemma FloorOfElevenFifths(half: int)
    ensures (half as real * 2.2).Floor == half * 11 / 5
  {
    var x := half as real * 2.2;
    var q, r := half * 11 / 5, half * 11 % 5;
    assert half * 11 == q * 5 + r;
    assert x * 5.0 == (half * 11) as real;
    assert q as real * 5.0 <= x * 5.0 < (q + 1) as real * 5.0;
  }

  /** Only the last block can end in a newline, and then in one. */
  lemma {:induction false} OnlyTheLastBlockEnds(text: string)
    ensures var blocks := Split(text);
      && (forall i :: 0 <= i < |blocks| - 1 ==> !Ends(blocks[i]))
      && (|blocks| > 1 && blocks[0] == "" ==> BLANK <= text)
      && (|blocks| == 1 ==> blocks[0] == text)
      && OneAtMost(blocks[|blocks| - 1])
  {
    if text == "" {
    } else if BLANK <= text {
      OnlyTheLastBlockEnds(text[2..]);
      assert Split(text)[1..] == Split(text[2..]);
    } else {
      OnlyTheLastBlockEnds(text[1..]);
      var blocks, rest := Split(text), Split(text[1..]);
      assert blocks[1..] == rest[1..];
      NotTwoNewlines(text);
      if |rest| > 1 {
        assert blocks[|blocks| - 1] == rest[|rest| - 1];
        assert !Ends(rest[0]) && (rest[0] == "" ==> text[1] == '\n');
        assert !Ends([text[0]] + rest[0]);
      } else {
        OneMoreInFront(text[0], text[1..]);
      }
    }
  }

  lemma NotTwoNewlines(text: string)
    requires !(BLANK <= text)
    ensures |text| < 2 || text[0] != '\n' || text[1] != '\n'
  {
  }

  predicate OneAtMost(block: string) {
    Ends(block) ==> !Ends(block[..|block| - 1])
  }

  lemma OneMoreInFront(c: char, rest: string)
    requires OneAtMost(rest) && (rest != "" && c == '\n' ==> rest[0] != '\n')
    ensures OneAtMost([c] + rest)
  {
    var text := [c] + rest;
    if |rest| > 1 {
      assert text[..|text| - 1] == [c] + rest[..|rest| - 1];
    }
  }

  lemma {:induction false} TrailingFront(c: char, rest: string)
    ensures Trailing([c] + rest)
            == if c == '\n' && Trailing(rest) == |rest| then Trailing(rest) + 1 else Trailing(rest)
    ensures Trailing(rest) <= |rest|
  {
    var text := [c] + rest;
    if rest != "" {
      TrailingFront(c, rest[..|rest| - 1]);
      assert text[..|text| - 1] == [c] + rest[..|rest| - 1];
    }
  }

  lemma AllNewlines(text: string)
    requires Trailing(text) == |text| && text != ""
    ensures text[0] == '\n'
  {
    if |text| > 1 {
      TrailingFront(text[0], text[1..]);
      assert text == [text[0]] + text[1..];
    }
  }

  function LastBlock(text: string): string {
    Split(text)[|Split(text)| - 1]
  }

  /** The last block ends in a newline exactly when the text ends in an odd run of them. */
  lemma {:induction false} LastBlockParity(text: string)
    ensures Ends(LastBlock(text)) <==> Trailing(text) % 2 == 1
  {
    if text == "" {
    } else if BLANK <= text {
      LastBlockParity(text[2..]);
      TwoInFront(text[2..]);
      assert text == BLANK + text[2..];
    } else {
      LastBlockParity(text[1..]);
      OneInFront(text[0], text[1..]);
      assert text == [text[0]] + text[1..];
    }
  }

  lemma TwoInFront(rest: string)
    ensures LastBlock(BLANK + rest) == LastBlock(rest)
    ensures Trailing(BLANK + rest) == Trailing(rest) || Trailing(BLANK + rest) == Trailing(rest) + 2
  {
    assert (BLANK + rest)[2..] == rest;
    TrailingFront('\n', rest);
    TrailingFront('\n', ['\n'] + rest);
    assert BLANK + rest == ['\n'] + (['\n'] + rest);
  }

  lemma OneInFront(c: char, rest: string)
    requires !(BLANK <= [c] + rest)
    ensures Ends(LastBlock([c] + rest)) == (if rest == "" then c == '\n' else Ends(LastBlock(rest)))
    ensures Trailing([c] + rest) == if rest == "" then (if c == '\n' then 1 else 0) else Trailing(rest)
  {
    FrontBlock(c, rest);
    TrailingFront(c, rest);
    if rest != "" && Trailing(rest) == |rest| {
      AllNewlines(rest);
      assert ([c] + rest)[1] == '\n';
    }
  }

  lemma FrontBlock(c: char, rest: string)
    requires !(BLANK <= [c] + rest)
    ensures Ends(LastBlock([c] + rest)) == (if rest == "" then c == '\n' else Ends(LastBlock(rest)))
  {
    var text, blocks := [c] + rest, Split(rest);
    assert text[1..] == rest;
    OnlyTheLastBlockEnds(rest);
    assert Split(text) == [[c] + blocks[0]] + blocks[1..];
    if |blocks| > 1 {
      assert LastBlock(text) == LastBlock(rest);
    } else {
      assert LastBlock(text) == [c] + rest;
    }
  }

  lemma PiecesJoinToTheText(text: string)
    ensures Join(Pieces(text)) == if Trailing(text) % 2 == 1 then text[..|text| - 1] else text
  {
    LastBlockParity(text);
    PiecesJoin(text);
  }

  lemma PiecesJoin(text: string)
    ensures Join(Pieces(text)) == if Ends(LastBlock(text)) then text[..|text| - 1] else text
  {
    var blocks := Split(text);
    var front := blocks[..|blocks| - 1];
    SplitJoins(text);
    PiecesAreBlocks(text);
    assert blocks == front + [LastBlock(text)];
    if Ends(LastBlock(text)) {
      ShorterLast(front, LastBlock(text));
    }
  }

  lemma PiecesAreBlocks(text: string)
    ensures var front, last := Split(text)[..|Split(text)| - 1], LastBlock(text);
      Pieces(text) == front + [if Ends(last) then last[..|last| - 1] else last]
  {
    var blocks := Split(text);
    OnlyTheLastBlockEnds(text);
    forall i | 0 <= i < |blocks|
      ensures Stripped(blocks[i])
              == if i < |blocks| - 1 || !Ends(blocks[i]) then blocks[i] else blocks[i][..|blocks[i]| - 1]
    {
      StripsOne(blocks[i]);
    }
  }

  lemma StripsOne(block: string)
    requires OneAtMost(block)
    ensures Stripped(block) == if Ends(block) then block[..|block| - 1] else block
  {
  }

  lemma ShorterLast(blocks: seq<string>, last: string)
    requires last != ""
    ensures Join(blocks + [last]) != ""
    ensures Join(blocks + [last[..|last| - 1]]) == Join(blocks + [last])[..|Join(blocks + [last])| - 1]
  {
    var shorter := last[..|last| - 1];
    if blocks == [] {
      assert blocks + [last] == [last] && blocks + [shorter] == [shorter];
    } else {
      JoinAdds(blocks, [last]);
      JoinAdds(blocks, [shorter]);
    }
  }

  // ---------------------------------------------------------------- sizes

  /** A group fits unless its last piece alone does not. */
  ghost predicate Fits(group: seq<string>, budget: nat) {
    && group != []
    && (forall i :: 0 <= i < |group| - 1 ==> !Oversized(group[i], budget))
    && (|group| > 1 && !Oversized(group[|group| - 1], budget) ==> Length(group) <= budget)
  }

  /** A chunk exceeds the budget exactly when its last block alone does. */
  lemma ChunksFitUnlessTheLastBlockIsTooLong(text: string, budget: nat, i: nat)
    requires i < |ChunksOf(text, budget)|
    ensures var group := Closed(GroupsOf(Pieces(text), budget))[i].pieces;
      group != [] && (TextBytes(ChunksOf(text, budget)[i]) > budget <==> TextBytes(group[|group| - 1]) > budget)
  {
    var group := Closed(GroupsOf(Pieces(text), budget))[i].pieces;
    AllFit(Pieces(text), budget);
    JoinBytes(group);
    LengthOfLast(group);
  }

  lemma {:induction false} AllFit(pieces: seq<string>, budget: nat)
    ensures var groups := GroupsOf(pieces, budget);
      && (forall i :: 0 <= i < |groups.closed| ==> Fits(groups.closed[i].pieces, budget))
      && (groups.open != [] ==> Fits(groups.open, budget) && !Oversized(groups.open[|groups.open| - 1], budget))
  {
    if pieces != [] {
      var rest, piece := pieces[..|pieces| - 1], pieces[|pieces| - 1];
      AllFit(rest, budget);
      OneMoreFits(GroupsOf(rest, budget), piece, budget);
    }
  }

  lemma OneMoreFits(groups: Groups, piece: string, budget: nat)
    requires groups.open != [] ==> Fits(groups.open, budget) && !Oversized(groups.open[|groups.open| - 1], budget)
    ensures var g := if Flushes(groups, piece, budget) then [] else groups.open;
      Fits(g + [piece], budget)
  {
    assert (groups.open + [piece])[..|groups.open|] == groups.open;
  }

  lemma {:induction false} JoinBytes(group: seq<string>)
    requires group != []
    ensures TextBytes(Join(group)) + 2 == Length(group)
  {
    var rest, last := group[..|group| - 1], group[|group| - 1];
    assert group == rest + [last];
    if rest != [] {
      JoinBytes(rest);
      JoinAdds(rest, [last]);
      TextBytesAdd(Join(rest) + BLANK, last);
      TextBytesAdd(Join(rest), BLANK);
      assert TextBytes(BLANK) == 2;
    }
  }

  lemma LengthOfLast(group: seq<string>)
    requires group != []
    ensures Length(group) >= TextBytes(group[|group| - 1]) + 2
    ensures |group| == 1 ==> Length(group) == TextBytes(group[0]) + 2
  {
  }

  /** Why a group ends before `first`: it ends in an oversized piece, or `first` would not fit any more. */
  predicate Cut(group: seq<string>, first: string, budget: nat) {
    group != []
    && (TextBytes(group[|group| - 1]) > budget
        || TextBytes(first) <= budget < TextBytes(Join(group + [first])) + 2)
  }

  predicate CutBetween(closed: seq<Group>, i: nat, budget: nat)
    requires 0 < i < |closed|
  {
    closed[i].pieces != [] && Cut(closed[i - 1].pieces, closed[i].pieces[0], budget)
  }

  /** Every cut so far is needed, and so is the one before the open group. */
  ghost predicate CutsNeeded(groups: Groups, budget: nat) {
    && (forall i :: 0 < i < |groups.closed| ==> CutBetween(groups.closed, i, budget))
    && (groups.closed != [] ==> CutBefore(groups.closed[|groups.closed| - 1].pieces, groups.open, budget))
  }

  predicate CutBefore(last: seq<string>, open: seq<string>, budget: nat) {
    last != [] && if open == [] then TextBytes(last[|last| - 1]) > budget else Cut(last, open[0], budget)
  }

  /** No cut is made where the next block still fits the chunk before it. */
  lemma {:induction false} EveryCutIsNeeded(pieces: seq<string>, budget: nat)
    ensures CutsNeeded(GroupsOf(pieces, budget), budget)
  {
    if pieces != [] {
      EveryCutIsNeeded(pieces[..|pieces| - 1], budget);
      OneMorePiece(pieces, budget);
      AddedNeeded(GroupsOf(pieces[..|pieces| - 1], budget), pieces[|pieces| - 1], budget);
    }
  }

  lemma AddedNeeded(groups: Groups, piece: string, budget: nat)
    requires CutsNeeded(groups, budget)
    ensures CutsNeeded(Added(groups, piece, budget), budget)
  {
    var g := Flushed(groups, piece, budget);
    var open := g.open + [piece];
    if Flushes(groups, piece, budget) {
      ClosedMore(groups.closed, groups.open, budget);
      JoinBytes(groups.open + [piece]);
      assert (groups.open + [piece])[..|groups.open|] == groups.open;
      assert Cut(groups.open, piece, budget);
    }
    assert CutsNeeded(Groups(g.closed, open), budget);
    if Oversized(piece, budget) {
      ClosedMore(g.closed, open, budget);
      assert open[|open| - 1] == piece;
    }
  }

  lemma ClosedMore(closed: seq<Group>, open: seq<string>, budget: nat)
    requires open != [] && forall i :: 0 < i < |closed| ==> CutBetween(closed, i, budget)
    requires closed != [] ==> CutBefore(closed[|closed| - 1].pieces, open, budget)
    ensures forall i :: 0 < i < |closed + [Group(open)]| ==> CutBetween(closed + [Group(open)], i, budget)
  {
    forall i | 0 < i < |closed| ensures CutBetween(closed + [Group(open)], i, budget) {
      assert CutBetween(closed, i, budget);
    }
  }

  /** Against the comment in the source, an oversized block does not always get a chunk of its own: it
      joins whatever is open, so it is alone exactly when it comes first or after another oversized
      block. */
  lemma OversizedBlocksAreAloneIff(pieces: seq<string>, budget: nat)
    requires pieces != [] && TextBytes(pieces[|pieces| - 1]) > budget
    ensures var groups := GroupsOf(pieces, budget);
      groups.closed != []
      && (|groups.closed[|groups.closed| - 1].pieces| == 1
          <==> |pieces| == 1 || TextBytes(pieces[|pieces| - 2]) > budget)
  {
    OpenIff(pieces[..|pieces| - 1], budget);
    OneMorePiece(pieces, budget);
  }

  lemma OpenIff(pieces: seq<string>, budget: nat)
    ensures GroupsOf(pieces, budget).open == [] <==> pieces == [] || Oversized(pieces[|pieces| - 1], budget)
  {
  }
}
