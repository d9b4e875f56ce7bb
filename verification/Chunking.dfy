/** Packing document blocks into bounded chunks, and finding the chunk of a fact. */
module Chunking {
  import opened Sequences
  import opened Wrappers
  import opened TextSpans

  const CHUNK_SIZE: nat := 600
  const CHUNK_OVERLAP: nat := 120
  const HEADER_LIMIT: nat := 240
  const HEADER_PREFIX: string := "\n表头："
  const CELL_SEPARATOR: string := " | "
  const EMPTY_DOCUMENT: string := "空白文件"

  datatype Locator = ParagraphLocator(paragraph: nat) | CellLocator(table: nat, row: nat, column: nat)

  datatype Block = Paragraph(text: string, paragraph: nat) | TableRow(text: string, table: nat, row: nat,
      cells: seq<string>)

  /** `index` stands for the chunk's identifier, which it determines together
      with the content. */
  datatype Chunk = Chunk(index: nat, text: string, locators: seq<Locator>)

  datatype BlockSpan = BlockSpan(chunk: nat, start: nat, end: nat)

  // ----- Joined texts -----------------------------------------------------------------------

  function Join(separator: string, texts: seq<string>): string {
    if texts == [] then "" else if |texts| == 1 then texts[0]
    else Join(separator, texts[..|texts| - 1]) + separator + texts[|texts| - 1]
  }

  function TotalLength(texts: seq<string>): nat {
    if texts == [] then 0 else TotalLength(texts[..|texts| - 1]) + |texts[|texts| - 1]|
  }

  lemma {:induction false} JoinLength(separator: string, texts: seq<string>)
    ensures |Join(separator, texts)| == TotalLength(texts) + (if texts == [] then 0 else (|texts| - 1) * |separator|)
  {
    if |texts| > 1 {
      JoinLength(separator, texts[..|texts| - 1]);
    }
  }

  predicate FoundAt(text: string, part: string, at: nat) {
    at + |part| <= |text| && text[at..at + |part|] == part
  }

  ghost predicate Contains(text: string, part: string) {
    exists at :: FoundAt(text, part, at)
  }

  /** Where one of the joined texts begins. */
  function OffsetOf(separator: string, texts: seq<string>, k: nat): nat
    requires k < |texts|
  {
    TotalLength(texts[..k]) + k * |separator|
  }

  lemma {:induction false} JoinedAround(separator: string, texts: seq<string>, k: nat)
    returns (before: string, after: string)
    requires k < |texts|
    ensures Join(separator, texts) == before + texts[k] + after && |before| == OffsetOf(separator, texts, k)
  {
    hide TotalLength;
    var head, last := texts[..|texts| - 1], texts[|texts| - 1];
    JoinUnfolds(separator, texts);
    hide Join;
    if k == |texts| - 1 {
      assert texts[..k] == head;
      if k == 0 {
        before, after := "", "";
        assert before + last + after == last && TotalLength(head) == 0 by { assert head == []; NoLength(); }
      } else {
        JoinLength(separator, head);
        before, after := Join(separator, head) + separator, "";
        assert (k - 1) * |separator| + |separator| == k * |separator|;
      }
    } else {
      before, after := JoinedAround(separator, head, k);
      assert head[..k] == texts[..k];
      Regroup(before, texts[k], after, separator + last);
      assert Join(separator, head) + separator + last == Join(separator, head) + (separator + last);
      after := after + (separator + last);
    }
  }

  lemma JoinUnfolds(separator: string, texts: seq<string>)
    requires texts != []
    ensures var head, last := texts[..|texts| - 1], texts[|texts| - 1];
            Join(separator, texts) == if head == [] then last else Join(separator, head) + separator + last
  {
  }

  lemma NoLength()
    ensures TotalLength([]) == 0
  {
  }

  lemma Regroup(a: string, b: string, c: string, d: string)
    ensures (a + b + c) + d == a + b + (c + d)
  {
  }

  lemma JoinedAt(separator: string, texts: seq<string>, k: nat)
    requires k < |texts|
    ensures FoundAt(Join(separator, texts), texts[k], OffsetOf(separator, texts, k))
  {
    var before, after := JoinedAround(separator, texts, k);
  }

  /** The range of a cell in the text of its row, which slices that text back to
      the cell; `None` for a column the row does not have. */
  method TableCellRange(cells: seq<string>, target: nat) returns (r: Option<Span>)
    ensures r.None? <==> target >= |cells|
    ensures r.Some? ==>
              var row := Join(CELL_SEPARATOR, cells);
              r.value.start <= r.value.end <= |row| && row[r.value.start..r.value.end] == cells[target]
  {
    var start := 0;
    for column := 0 to |cells|
      invariant column <= target && (column < |cells| ==> start == OffsetOf(CELL_SEPARATOR, cells, column))
    {
      var end := start + |cells[column]|;
      if column == target {
        JoinedAt(CELL_SEPARATOR, cells, column);
        return Some(Span(start, end));
      }
      start := end + |CELL_SEPARATOR|;
      assert cells[..column + 1][..column] == cells[..column];
    }
    return None;
  }

  // ----- Header context ------------------------------------------------------------------------

  /** At most `limit` characters: the text itself, or its two ends around an
      ellipsis. */
  function BoundedText(value: string, limit: int): (r: string)
    ensures |r| == if limit <= 0 then 0 else SmallerOf(|value|, limit)
    ensures limit >= |value| ==> r == value
    ensures 0 < limit <= 2 && limit < |value| ==> r == value[..limit]
    ensures 2 < limit < |value| ==>
              var head := (limit - 1) / 2; var tail := limit - head - 1;
              r[..head] == value[..head] && r[head] == '…' && r[head + 1..] == value[|value| - tail..]
              && head <= tail <= head + 1
  {
    if limit <= 0 then ""
    else if |value| <= limit then value
    else if limit <= 2 then value[..limit]
    else
      var head := (limit - 1) / 2;
      var tail := limit - head - 1;
      value[..head] + "…" + value[|value| - tail..]
  }

  /** The column names, as far as the limit allows. */
  function TableHeaderSuffix(header: Option<Block>, limit: int): (r: string)
    ensures |r| <= HEADER_LIMIT && (r != "" ==> |r| <= limit && HEADER_PREFIX <= r)
    // There is context whenever there are column names and room for any of
    // them, and it is complete whenever there is room for all.
    ensures r == "" <==> header.None? || header.value.text == "" || limit <= 4
    ensures r != "" && 4 + |header.value.text| <= limit && 4 + |header.value.text| <= 240 ==>
              r == "\n表头：" + header.value.text
    ensures r != "" && (4 + |header.value.text| > limit || 4 + |header.value.text| > 240) ==>
              |r| == if limit < 240 then limit else 240
  {
    if header.None? || header.value.text == "" then ""
    else
      var most := if limit < HEADER_LIMIT then limit else HEADER_LIMIT;
      if most <= |HEADER_PREFIX| then ""
      else HEADER_PREFIX + BoundedText(header.value.text, most - |HEADER_PREFIX|)
  }

  function BlockLocators(block: Block): seq<Locator> {
    match block
    case Paragraph(_, paragraph) => [ParagraphLocator(paragraph)]
    case TableRow(_, table, row, cells) =>
      seq(|cells|, column requires 0 <= column < |cells| => CellLocator(table, row, column))
  }

  // ----- What each block comes to -----------------------------------------------------------------

  /** Table rows below the first, and whatever is too long, share no chunk. */
  predicate Alone(block: Block) { (block.TableRow? && block.row > 0) || |block.text| > CHUNK_SIZE }

  /** The last row zero of a table, which holds its column names. */
  function HeaderOf(blocks: seq<Block>, table: nat): (r: Option<Block>)
    ensures match r
            case None => forall k :: 0 <= k < |blocks| ==> !HeadsTable(blocks[k], table)
            case Some(h) =>
              exists k :: 0 <= k < |blocks| && blocks[k] == h && HeadsTable(h, table)
                          && forall l :: k < l < |blocks| ==> !HeadsTable(blocks[l], table)
  {
    if blocks == [] then None
    else if HeadsTable(blocks[|blocks| - 1], table) then Some(blocks[|blocks| - 1])
    else
      var head := blocks[..|blocks| - 1];
      assert forall k :: 0 <= k < |head| ==> head[k] == blocks[k];
      HeaderOf(head, table)
  }

  /** What follows a block that has its own chunks: the column names of its
      table, for a row that fits as many as there is room for. */
  function ContextOf(blocks: seq<Block>, block: Block): string {
    if block.TableRow? && block.row > 0 then
      TableHeaderSuffix(HeaderOf(blocks, block.table),
                        if |block.text| <= CHUNK_SIZE then CHUNK_SIZE - |block.text| - 1 else HEADER_LIMIT)
    else ""
  }

  function TextsOf(blocks: seq<Block>, lo: nat, hi: nat): seq<string>
    requires lo <= hi <= |blocks|
  {
    seq(hi - lo, i requires 0 <= i < hi - lo => blocks[lo + i].text)
  }

  function LocatorsOf(blocks: seq<Block>, lo: nat, hi: nat): seq<Locator>
    requires lo <= hi <= |blocks|
    decreases hi
  {
    if lo == hi then [] else LocatorsOf(blocks, lo, hi - 1) + BlockLocators(blocks[hi - 1])
  }

  /** A block with chunks of its own: each is a slice and the context, with the
      block's locators; a single one if the block fits. */
  ghost predicate ShownAlone(blocks: seq<Block>, p: Packing, b: nat)
    requires b < |blocks|
  {
    b in p.spans
    && (|blocks[b].text| <= CHUNK_SIZE ==>
          |p.spans[b]| == 1 && p.spans[b][0].start == 0 && p.spans[b][0].end == |blocks[b].text|)
    && forall k :: 0 <= k < |p.spans[b]| ==> ShowsPiece(blocks, p, b, p.spans[b][k])
  }

  ghost predicate ShowsPiece(blocks: seq<Block>, p: Packing, b: nat, s: BlockSpan)
    requires b < |blocks|
  {
    s.chunk < |p.chunks| && s.start <= s.end <= |blocks[b].text|
    && p.chunks[s.chunk] == Chunk(s.chunk, blocks[b].text[s.start..s.end] + ContextOf(blocks, blocks[b]),
                                  BlockLocators(blocks[b]))
  }

  /** Blocks that share chunk `c`, in order, with all their locators; the next
      block would not have fitted, and the one before is in an earlier chunk. */
  ghost predicate Run(blocks: seq<Block>, p: Packing, lo: nat, hi: nat, c: nat) {
    && lo < hi <= |blocks| && c < |p.chunks|
    && p.chunks[c] == Chunk(c, Join("\n", TextsOf(blocks, lo, hi)), LocatorsOf(blocks, lo, hi))
    && (forall d :: lo <= d < hi ==>
          !Alone(blocks[d]) && d in p.spans && p.spans[d] == [BlockSpan(c, 0, |blocks[d].text|)])
    && (hi < |blocks| && !Alone(blocks[hi]) ==> |p.chunks[c].text| + 1 + |blocks[hi].text| > CHUNK_SIZE)
    && (lo > 0 ==> lo - 1 in p.spans && AllBefore(p.spans[lo - 1], c))
  }

  predicate AllBefore(spans: seq<BlockSpan>, c: nat) {
    forall k :: 0 <= k < |spans| ==> spans[k].chunk < c
  }

  ghost predicate InRun(blocks: seq<Block>, p: Packing, b: nat) {
    exists lo: nat, hi: nat, c: nat :: lo <= b < hi && Run(blocks, p, lo, hi, c)
  }

  ghost predicate AsPlanned(blocks: seq<Block>, p: Packing, b: nat)
    requires b < |blocks|
  {
    if Alone(blocks[b]) then ShownAlone(blocks, p, b)
    else InRun(blocks, p, b)
  }

  /** A chunk shows some block. */
  ghost predicate Shown(p: Packing, c: nat) {
    exists b, k :: b in p.spans && 0 <= k < |p.spans[b]| && p.spans[b][k].chunk == c
  }

  /** More chunks, and spans of more blocks. */
  ghost predicate Extends(p: Packing, q: Packing) {
    p.chunks <= q.chunks && forall d :: d in p.spans ==> d in q.spans && q.spans[d] == p.spans[d]
  }

  lemma StaysPlanned(blocks: seq<Block>, p: Packing, q: Packing, b: nat)
    requires b < |blocks| && AsPlanned(blocks, p, b) && Extends(p, q)
    ensures AsPlanned(blocks, q, b)
  {
    hide Join, ContextOf, LocatorsOf, BlockLocators, TextsOf;
    if !Alone(blocks[b]) {
      var lo: nat, hi: nat, c: nat :| lo <= b < hi && Run(blocks, p, lo, hi, c);
      RunStays(blocks, p, q, lo, hi, c);
      assert lo <= b < hi && Run(blocks, q, lo, hi, c);
    } else {
      forall k | 0 <= k < |q.spans[b]|
        ensures ShowsPiece(blocks, q, b, q.spans[b][k])
      {
        assert ShowsPiece(blocks, p, b, p.spans[b][k]);
      }
    }
  }

  lemma RunStays(blocks: seq<Block>, p: Packing, q: Packing, lo: nat, hi: nat, c: nat)
    requires Run(blocks, p, lo, hi, c) && Extends(p, q)
    ensures Run(blocks, q, lo, hi, c)
  {
    hide Join, LocatorsOf, TextsOf, Alone;
  }

  lemma StaysShown(p: Packing, q: Packing, c: nat)
    requires Shown(p, c) && Extends(p, q)
    ensures Shown(q, c)
  {
    var b, k :| b in p.spans && 0 <= k < |p.spans[b]| && p.spans[b][k].chunk == c;
    assert b in q.spans && q.spans[b][k].chunk == c;
  }

  /** Everything packed so far is as planned, and nothing else has been. */
  ghost predicate Faithful(blocks: seq<Block>, p: Packing) {
    && (forall b :: b in p.spans ==> b < |blocks| && AsPlanned(blocks, p, b))
    && (forall c :: 0 <= c < |p.chunks| ==> Shown(p, c))
  }

  /** What is new is as planned and shown; what was there stays so. */
  lemma StaysFaithful(blocks: seq<Block>, p: Packing, q: Packing)
    requires Faithful(blocks, p) && Extends(p, q)
    requires forall b :: b in q.spans && b !in p.spans ==> b < |blocks| && AsPlanned(blocks, q, b)
    requires forall c :: |p.chunks| <= c < |q.chunks| ==> Shown(q, c)
    ensures Faithful(blocks, q)
  {
    hide AsPlanned, Shown, Extends;
    forall b | b in q.spans
      ensures b < |blocks| && AsPlanned(blocks, q, b)
    {
      if b in p.spans { StaysPlanned(blocks, p, q, b); }
    }
    forall c | 0 <= c < |q.chunks|
      ensures Shown(q, c)
    {
      if c < |p.chunks| { StaysShown(p, q, c); }
    }
  }

  // ----- Packing ------------------------------------------------------------------------------------

  datatype Packing = Packing(chunks: seq<Chunk>, spans: map<nat, seq<BlockSpan>>)

  /** The spans cover the block in order without a gap. */
  predicate Covering(n: nat, spans: seq<BlockSpan>) {
    n == 0 ||
    (&& spans != [] && spans[0].start == 0 && spans[|spans| - 1].end == n
     && (forall k :: 0 <= k < |spans| ==> spans[k].start < spans[k].end <= n)
     && (forall k :: 0 <= k < |spans| - 1 ==> spans[k].start < spans[k + 1].start <= spans[k].end <= spans[k + 1].end))
  }

  ghost predicate Names(block: Block, s: BlockSpan, chunks: seq<Chunk>) {
    s.chunk < |chunks| && s.start <= s.end <= |block.text| && Contains(chunks[s.chunk].text, block.text[s.start..s.end])
  }

  /** What is true of the chunks and spans of a whole document. */
  ghost predicate Packed(blocks: seq<Block>, p: Packing) {
    && (forall c :: 0 <= c < |p.chunks| ==> p.chunks[c].index == c && |p.chunks[c].text| <= CHUNK_SIZE)
    && (forall b :: b in p.spans ==>
          b < |blocks| && Covering(|blocks[b].text|, p.spans[b])
          && forall k :: 0 <= k < |p.spans[b]| ==> Names(blocks[b], p.spans[b][k], p.chunks))
  }

  // ----- Steps of the packer -------------------------------------------------------------------

  lemma NamesMoreChunks(block: Block, s: BlockSpan, chunks: seq<Chunk>, more: seq<Chunk>)
    requires Names(block, s, chunks)
    ensures Names(block, s, chunks + more)
  {
  }

  /** New chunks at the end, with the spans of one block that has none yet. */
  lemma PackedGrows(blocks: seq<Block>, p: Packing, b: nat, chunks: seq<Chunk>, spans: seq<BlockSpan>)
    requires Packed(blocks, p) && b < |blocks| && b !in p.spans
    requires forall c :: 0 <= c < |chunks| ==> chunks[c].index == |p.chunks| + c && |chunks[c].text| <= CHUNK_SIZE
    requires Covering(|blocks[b].text|, spans) && forall k :: 0 <= k < |spans| ==>
             Names(blocks[b], spans[k], p.chunks + chunks)
    ensures Packed(blocks, Packing(p.chunks + chunks, p.spans[b := spans]))
  {
    var q := Packing(p.chunks + chunks, p.spans[b := spans]);
    forall d, k | d in p.spans && 0 <= k < |p.spans[d]|
      ensures Names(blocks[d], p.spans[d][k], q.chunks)
    {
      NamesMoreChunks(blocks[d], p.spans[d][k], p.chunks, chunks);
    }
    hide Names, Covering;
  }

  /** Chunk `c` is a slice of the block and the suffix. */
  predicate PieceShown(block: Block, q: Packing, s: BlockSpan, c: nat, suffix: string) {
    && s.chunk == c < |q.chunks| && s.start <= s.end <= |block.text|
    && q.chunks[c] == Chunk(c, block.text[s.start..s.end] + suffix, BlockLocators(block))
  }

  /** One chunk for each piece of a block, each followed by the same suffix. */
  method BuildPieces(block: Block, base: nat, pieces: seq<Span>, suffix: string)
    returns (chunks: seq<Chunk>, spans: seq<BlockSpan>)
    requires forall k :: 0 <= k < |pieces| ==> pieces[k].start <= pieces[k].end <= |block.text|
    ensures |chunks| == |spans| == |pieces|
    ensures forall c :: 0 <= c < |pieces| ==> spans[c] == BlockSpan(base + c, pieces[c].start, pieces[c].end)
    ensures forall c :: 0 <= c < |pieces| ==>
              chunks[c] == Chunk(base + c, block.text[pieces[c].start..pieces[c].end] + suffix, BlockLocators(block))
  {
    chunks, spans := [], [];
    for k := 0 to |pieces|
      invariant |chunks| == |spans| == k
      invariant forall c :: 0 <= c < k ==> spans[c] == BlockSpan(base + c, pieces[c].start, pieces[c].end)
      invariant forall c :: 0 <= c < k ==>
                  chunks[c] == Chunk(base + c, block.text[pieces[c].start..pieces[c].end] + suffix,
                      BlockLocators(block))
    {
      var piece := pieces[k];
      chunks := chunks + [Chunk(base + k, block.text[piece.start..piece.end] + suffix, BlockLocators(block))];
      spans := spans + [BlockSpan(base + k, piece.start, piece.end)];
    }
  }

  /** A block too long for one chunk, in pieces with the same suffix. */
  method AppendPieces(blocks: seq<Block>, p: Packing, b: nat, pieces: seq<Span>, suffix: string) returns (q: Packing)
    requires Packed(blocks, p) && b < |blocks| && b !in p.spans && |suffix| <= CHUNK_SIZE
    requires Tiling(|blocks[b].text|, pieces, CHUNK_SIZE - |suffix|)
    ensures Packed(blocks, q) && q.spans.Keys == p.spans.Keys + {b} && p.chunks < q.chunks && Extends(p, q)
    ensures |q.chunks| == |p.chunks| + |q.spans[b]|
    ensures forall k :: 0 <= k < |q.spans[b]| ==> PieceShown(blocks[b], q, q.spans[b][k], |p.chunks| + k, suffix)
  {
    var chunks, spans := BuildPieces(blocks[b], |p.chunks|, pieces, suffix);
    PiecesAppended(blocks, p, b, pieces, suffix, chunks, spans);
    hide Packed, Tiling, PieceShown, Extends;
    q := Packing(p.chunks + chunks, p.spans[b := spans]);
  }

  lemma PiecesAppended(
    blocks: seq<Block>, p: Packing, b: nat, pieces: seq<Span>, suffix: string, chunks: seq<Chunk>,
    spans: seq<BlockSpan>)
    requires Packed(blocks, p) && b < |blocks| && b !in p.spans && |suffix| <= CHUNK_SIZE
    requires Tiling(|blocks[b].text|, pieces, CHUNK_SIZE - |suffix|) && |chunks| == |spans| == |pieces|
    requires forall c :: 0 <= c < |pieces| ==> spans[c] == BlockSpan(|p.chunks| + c, pieces[c].start, pieces[c].end)
    requires forall c :: 0 <= c < |pieces| ==>
               chunks[c] == Chunk(|p.chunks| + c, blocks[b].text[pieces[c].start..pieces[c].end] + suffix,
                                  BlockLocators(blocks[b]))
    ensures var q := Packing(p.chunks + chunks, p.spans[b := spans]);
            && Packed(blocks, q) && Extends(p, q) && chunks != []
            && forall k :: 0 <= k < |spans| ==> PieceShown(blocks[b], q, spans[k], |p.chunks| + k, suffix)
  {
    hide Packed, BlockLocators, Tiling, Covering, Names, Extends;
    var q := Packing(p.chunks + chunks, p.spans[b := spans]);
    TilingCoversBlock(|blocks[b].text|, pieces, CHUNK_SIZE - |suffix|, spans);
    PiecesWithin(|blocks[b].text|, pieces, CHUNK_SIZE - |suffix|);
    forall k | 0 <= k < |spans|
      ensures Names(blocks[b], spans[k], q.chunks) && PieceShown(blocks[b], q, spans[k], |p.chunks| + k, suffix)
    {
      assert q.chunks[|p.chunks| + k] == chunks[k];
      PieceNames(blocks[b], q, spans[k], |p.chunks| + k, suffix);
    }
    hide PieceShown;
    PackedGrows(blocks, p, b, chunks, spans);
    assert Extends(p, q) by { MoreExtends(p, chunks, b, spans); }
  }

  lemma MoreExtends(p: Packing, chunks: seq<Chunk>, b: nat, spans: seq<BlockSpan>)
    requires b !in p.spans
    ensures Extends(p, Packing(p.chunks + chunks, p.spans[b := spans]))
  {
  }

  lemma PiecesWithin(n: nat, pieces: seq<Span>, most: int)
    requires Tiling(n, pieces, most)
    ensures pieces != []
    ensures forall k :: 0 <= k < |pieces| ==>
            pieces[k].start < pieces[k].end <= n && pieces[k].end - pieces[k].start <= most
  {
  }

  lemma PieceNames(block: Block, q: Packing, s: BlockSpan, c: nat, suffix: string)
    requires PieceShown(block, q, s, c, suffix)
    ensures Names(block, s, q.chunks)
  {
    assert FoundAt(q.chunks[c].text, block.text[s.start..s.end], 0);
  }

  lemma TilingCoversBlock(n: nat, pieces: seq<Span>, most: int, spans: seq<BlockSpan>)
    requires Tiling(n, pieces, most) && |spans| == |pieces|
    requires forall c :: 0 <= c < |pieces| ==> spans[c].start == pieces[c].start && spans[c].end == pieces[c].end
    ensures Covering(n, spans)
  {
  }

  /** A table row that fits, with as much header context as there is room for. */
  method AppendRow(blocks: seq<Block>, p: Packing, b: nat, header: Option<Block>) returns (q: Packing)
    requires Packed(blocks, p) && b < |blocks| && b !in p.spans && |blocks[b].text| <= CHUNK_SIZE
    ensures q.chunks == p.chunks
              + [Chunk(|p.chunks|, blocks[b].text + TableHeaderSuffix(header, CHUNK_SIZE - |blocks[b].text| - 1),
                  BlockLocators(blocks[b]))]
    ensures q.spans == p.spans[b := [BlockSpan(|p.chunks|, 0, |blocks[b].text|)]]
    ensures Packed(blocks, q) && q.spans.Keys == p.spans.Keys + {b} && p.chunks < q.chunks
  {
    var block := blocks[b];
    var suffix := TableHeaderSuffix(header, HEADER_LIMIT);
    var budget := CHUNK_SIZE - |block.text| - 1;
    SuffixWithin(header, budget);
    if budget <= 0 {
      suffix := "";
    } else if |suffix| > budget {
      suffix := TableHeaderSuffix(header, budget);
    }
    RowPacked(blocks, p, b, suffix);
    hide TableHeaderSuffix, Packed, Names;
    var chunk := Chunk(|p.chunks|, block.text + suffix, BlockLocators(block));
    q := Packing(p.chunks + [chunk], p.spans[b := [BlockSpan(|p.chunks|, 0, |block.text|)]]);
  }

  /** The header context that is used is the longest the row leaves room for. */
  lemma SuffixWithin(header: Option<Block>, budget: int)
    ensures budget <= 0 ==> TableHeaderSuffix(header, budget) == ""
    ensures |TableHeaderSuffix(header, HEADER_LIMIT)| <= budget ==>
              TableHeaderSuffix(header, HEADER_LIMIT) == TableHeaderSuffix(header, budget)
    ensures budget > 0 ==> |TableHeaderSuffix(header, budget)| <= budget
  {
  }

  lemma RowPacked(blocks: seq<Block>, p: Packing, b: nat, suffix: string)
    requires Packed(blocks, p) && b < |blocks| && b !in p.spans && |blocks[b].text| + |suffix| <= CHUNK_SIZE
    ensures Packed(blocks, Packing(p.chunks + [Chunk(|p.chunks|, blocks[b].text + suffix, BlockLocators(blocks[b]))],
                                   p.spans[b := [BlockSpan(|p.chunks|, 0, |blocks[b].text|)]]))
  {
    var chunk := Chunk(|p.chunks|, blocks[b].text + suffix, BlockLocators(blocks[b]));
    var span := BlockSpan(|p.chunks|, 0, |blocks[b].text|);
    assert FoundAt((p.chunks + [chunk])[span.chunk].text, blocks[b].text[0..|blocks[b].text|], 0);
    PackedGrows(blocks, p, b, [chunk], [span]);
  }

  /** A row too long for one chunk: split, with the header after each piece. */
  method AppendLongRow(blocks: seq<Block>, p: Packing, b: nat, header: Option<Block>, isSpace: char -> bool)
    returns (q: Packing)
    requires Packed(blocks, p) && b < |blocks| && b !in p.spans && |blocks[b].text| > CHUNK_SIZE
    ensures Packed(blocks, q) && q.spans.Keys == p.spans.Keys + {b} && p.chunks < q.chunks && Extends(p, q)
    ensures |q.chunks| == |p.chunks| + |q.spans[b]|
    ensures forall k :: 0 <= k < |q.spans[b]| ==>
              PieceShown(blocks[b], q, q.spans[b][k], |p.chunks| + k, TableHeaderSuffix(header, HEADER_LIMIT))
  {
    var suffix := TableHeaderSuffix(header, HEADER_LIMIT);
    var available := CHUNK_SIZE - |suffix|;
    if available <= 0 {
      available, suffix := CHUNK_SIZE, "";
    }
    var pieces := SplitTextSpans(blocks[b].text, available, SmallerOf(CHUNK_OVERLAP, available / 2), isSpace);
    q := AppendPieces(blocks, p, b, pieces.value, suffix);
  }

  /** Consecutive blocks that wait to share a chunk. */
  datatype Pending = Pending(first: nat, texts: seq<string>, locators: seq<Locator>)

  ghost predicate Waiting(blocks: seq<Block>, p: Packing, w: Pending, n: nat) {
    && w.first + |w.texts| == n <= |blocks|
    && w.texts == TextsOf(blocks, w.first, n) && w.locators == LocatorsOf(blocks, w.first, n)
    && (forall d :: w.first <= d < n ==> !Alone(blocks[d]))
    && |Join("\n", w.texts)| <= CHUNK_SIZE
    && (forall b: nat :: b in p.spans <==> b < w.first)
  }

  /** The next block cannot join those that wait. */
  predicate Ends(blocks: seq<Block>, w: Pending, n: nat) {
    w.texts != [] && n < |blocks| && !Alone(blocks[n]) ==>
      |Join("\n", w.texts)| + 1 + |blocks[n].text| > CHUNK_SIZE
  }

  method FlushPending(blocks: seq<Block>, p: Packing, w: Pending, n: nat) returns (q: Packing)
    requires Packed(blocks, p) && Faithful(blocks, p) && Waiting(blocks, p, w, n) && Ends(blocks, w, n)
    ensures Packed(blocks, q) && Faithful(blocks, q)
    ensures (forall b: nat :: b in q.spans <==> b < n) && p.chunks <= q.chunks
    ensures n > 0 && w.texts != [] ==> q.chunks != []
  {
    hide Packed, Join, Faithful, TextsOf, LocatorsOf, Ends, Alone, Names, Covering;
    if w.texts == [] {
      return p;
    }
    var chunk := Chunk(|p.chunks|, Join("\n", w.texts), w.locators);
    ChunkAdded(blocks, p, chunk);
    q := RecordShared(blocks, Packing(p.chunks + [chunk], p.spans), w, n);
    RunShown(blocks, p, q, w, n);
  }

  lemma RunShown(blocks: seq<Block>, p: Packing, q: Packing, w: Pending, n: nat)
    requires Packed(blocks, p) && Faithful(blocks, p) && Waiting(blocks, p, w, n) && Ends(blocks, w, n) && w.texts != []
    requires q.chunks == p.chunks + [Chunk(|p.chunks|, Join("\n", w.texts), w.locators)]
    requires forall b: nat :: b in q.spans <==> b < n
    requires forall b: nat :: b < w.first ==> q.spans[b] == p.spans[b]
    requires forall b: nat :: w.first <= b < n ==> q.spans[b] == [BlockSpan(|p.chunks|, 0, |blocks[b].text|)]
    ensures Faithful(blocks, q)
  {
    hide Join, LocatorsOf, TextsOf, Faithful, Covering;
    var c := |p.chunks|;
    if w.first > 0 {
      var spans := p.spans[w.first - 1];
      assert forall k :: 0 <= k < |spans| ==> Names(blocks[w.first - 1], spans[k], p.chunks);
      assert AllBefore(spans, c);
    }
    assert Run(blocks, q, w.first, n, c);
    assert forall b: nat :: w.first <= b < n ==> InRun(blocks, q, b);
    assert Shown(q, c) by { assert q.spans[w.first][0].chunk == c; }
    assert Extends(p, q);
    StaysFaithful(blocks, p, q);
  }

  /** The spans of all blocks that share the last chunk. */
  method RecordShared(blocks: seq<Block>, p: Packing, w: Pending, n: nat) returns (q: Packing)
    requires Packed(blocks, p) && Waiting(blocks, p, w, n)
    requires p.chunks != [] && p.chunks[|p.chunks| - 1].text == Join("\n", w.texts)
    ensures Packed(blocks, q) && (forall b: nat :: b in q.spans <==> b < n) && q.chunks == p.chunks
    ensures forall b: nat :: b < w.first ==> q.spans[b] == p.spans[b]
    ensures forall b: nat :: w.first <= b < n ==> q.spans[b] == [BlockSpan(|p.chunks| - 1, 0, |blocks[b].text|)]
  {
    hide Packed, Join, Names;
    q := p;
    for b := w.first to n
      invariant Packed(blocks, q) && q.chunks == p.chunks
      invariant forall d: nat :: d in q.spans <==> d < b
      invariant forall d: nat :: d < w.first ==> q.spans[d] == p.spans[d]
      invariant forall d: nat :: w.first <= d < b ==> q.spans[d] == [BlockSpan(|p.chunks| - 1, 0, |blocks[d].text|)]
    {
      SharedChunkNames(blocks, w, b, q.chunks);
      SpanRecorded(blocks, q, b);
      q := q.(spans := q.spans[b := [BlockSpan(|p.chunks| - 1, 0, |blocks[b].text|)]]);
    }
  }

  lemma ChunkAdded(blocks: seq<Block>, p: Packing, chunk: Chunk)
    requires Packed(blocks, p) && chunk.index == |p.chunks| && |chunk.text| <= CHUNK_SIZE
    ensures Packed(blocks, Packing(p.chunks + [chunk], p.spans))
  {
    forall b, k | b in p.spans && 0 <= k < |p.spans[b]|
      ensures Names(blocks[b], p.spans[b][k], p.chunks + [chunk])
    {
      NamesMoreChunks(blocks[b], p.spans[b][k], p.chunks, [chunk]);
    }
    hide Names, Covering;
  }

  lemma SpanRecorded(blocks: seq<Block>, q: Packing, b: nat)
    requires Packed(blocks, q) && b < |blocks| && q.chunks != []
    requires Names(blocks[b], BlockSpan(|q.chunks| - 1, 0, |blocks[b].text|), q.chunks)
    ensures Packed(blocks, q.(spans := q.spans[b := [BlockSpan(|q.chunks| - 1, 0, |blocks[b].text|)]]))
  {
    assert Covering(|blocks[b].text|, [BlockSpan(|q.chunks| - 1, 0, |blocks[b].text|)]);
    hide Names, Covering;
  }

  lemma SharedChunkNames(blocks: seq<Block>, w: Pending, b: nat, chunks: seq<Chunk>)
    requires w.first <= b < w.first + |w.texts| <= |blocks| && w.texts[b - w.first] == blocks[b].text
    requires chunks != [] && chunks[|chunks| - 1].text == Join("\n", w.texts)
    ensures Names(blocks[b], BlockSpan(|chunks| - 1, 0, |blocks[b].text|), chunks)
  {
    JoinedAt("\n", w.texts, b - w.first);
    assert blocks[b].text[0..|blocks[b].text|] == blocks[b].text;
  }

  lemma RoomFor(texts: seq<string>, text: string)
    ensures |Join("\n", texts + [text])| == |text| + (if texts == [] then 0 else TotalLength(texts) + |texts|)
  {
    JoinLength("\n", texts + [text]);
    assert (texts + [text])[..|texts|] == texts;
  }

  /** The header row of each table: its last row number zero. */
  method TableHeaders(blocks: seq<Block>) returns (headers: map<nat, Block>)
    ensures forall t :: HeaderIn(headers, t) == HeaderOf(blocks, t)
  {
    headers := map[];
    for n := 0 to |blocks|
      invariant forall t :: HeaderIn(headers, t) == HeaderOf(blocks[..n], t)
    {
      assert blocks[..n + 1][..n] == blocks[..n];
      if blocks[n].TableRow? && blocks[n].row == 0 {
        headers := headers[blocks[n].table := blocks[n]];
      }
    }
    assert blocks[..|blocks|] == blocks;
  }

  function HeaderIn(headers: map<nat, Block>, table: nat): Option<Block> {
    if table in headers then Some(headers[table]) else None
  }

  predicate HeadsTable(block: Block, table: nat) {
    block.TableRow? && block.row == 0 && block.table == table
  }

  /** A block with chunks of its own: a table row, or text too long for one. */
  method PackAlone(blocks: seq<Block>, p: Packing, n: nat, headers: map<nat, Block>, isSpace: char -> bool)
    returns (q: Packing)
    requires n < |blocks| && Packed(blocks, p) && n !in p.spans && Alone(blocks[n])
    requires forall t :: HeaderIn(headers, t) == HeaderOf(blocks, t)
    ensures Packed(blocks, q) && q.spans.Keys == p.spans.Keys + {n} && p.chunks < q.chunks && Extends(p, q)
    ensures AsPlanned(blocks, q, n) && forall c :: |p.chunks| <= c < |q.chunks| ==> Shown(q, c)
  {
    var block := blocks[n];
    hide Packed, TableHeaderSuffix, BlockLocators, HeaderOf;
    if block.TableRow? && block.row > 0 {
      var header := if block.table in headers then Some(headers[block.table]) else None;
      assert header == HeaderIn(headers, block.table);
      if |block.text| <= CHUNK_SIZE {
        q := AppendRow(blocks, p, n, header);
        RowShown(blocks, p, q, n);
      } else {
        q := AppendLongRow(blocks, p, n, header, isSpace);
        PiecesShown(blocks, p, q, n);
      }
    } else {
      var pieces := SplitTextSpans(block.text, CHUNK_SIZE, CHUNK_OVERLAP, isSpace);
      q := AppendPieces(blocks, p, n, pieces.value, "");
      PiecesShown(blocks, p, q, n);
    }
  }

  lemma RowShown(blocks: seq<Block>, p: Packing, q: Packing, n: nat)
    requires n < |blocks| && n !in p.spans && Alone(blocks[n]) && |blocks[n].text| <= CHUNK_SIZE
    requires q.chunks == p.chunks
               + [Chunk(|p.chunks|, blocks[n].text + ContextOf(blocks, blocks[n]), BlockLocators(blocks[n]))]
    requires q.spans == p.spans[n := [BlockSpan(|p.chunks|, 0, |blocks[n].text|)]]
    ensures AsPlanned(blocks, q, n) && Extends(p, q) && forall c :: |p.chunks| <= c < |q.chunks| ==> Shown(q, c)
  {
    hide ContextOf, BlockLocators;
    assert blocks[n].text[0..|blocks[n].text|] == blocks[n].text;
    assert ShowsPiece(blocks, q, n, q.spans[n][0]);
  }

  lemma PiecesShown(blocks: seq<Block>, p: Packing, q: Packing, n: nat)
    requires n < |blocks| && Alone(blocks[n]) && |blocks[n].text| > CHUNK_SIZE && n in q.spans
    requires |q.chunks| == |p.chunks| + |q.spans[n]|
    requires forall k :: 0 <= k < |q.spans[n]| ==>
               PieceShown(blocks[n], q, q.spans[n][k], |p.chunks| + k, ContextOf(blocks, blocks[n]))
    ensures AsPlanned(blocks, q, n) && forall c :: |p.chunks| <= c < |q.chunks| ==> Shown(q, c)
  {
    hide ContextOf, BlockLocators;
    forall c | |p.chunks| <= c < |q.chunks|
      ensures Shown(q, c)
    {
      assert PieceShown(blocks[n], q, q.spans[n][c - |p.chunks|], c, ContextOf(blocks, blocks[n]));
    }
  }

  /** A block that can share a chunk, after a full one has been closed. */
  method PackShared(blocks: seq<Block>, p: Packing, w: Pending, n: nat) returns (q: Packing, v: Pending)
    requires n < |blocks| && Packed(blocks, p) && Faithful(blocks, p) && Waiting(blocks, p, w, n) && !Alone(blocks[n])
    ensures Packed(blocks, q) && Faithful(blocks, q) && Waiting(blocks, q, v, n + 1) && v.texts != []
  {
    hide Packed, Faithful, Waiting, BlockLocators;
    WaitingLength(blocks, p, w, n);
    q, v := p, w;
    if w.texts != [] && |blocks[n].text| + TotalLength(w.texts) + |w.texts| > CHUNK_SIZE {
      q := FlushPending(blocks, p, w, n);
      v := Pending(n, [], []);
      NothingWaits(blocks, q, n);
    }
    OneMoreWaits(blocks, q, v, n);
    v := Pending(v.first, v.texts + [blocks[n].text], v.locators + BlockLocators(blocks[n]));
  }

  lemma WaitingLength(blocks: seq<Block>, p: Packing, w: Pending, n: nat)
    requires Waiting(blocks, p, w, n)
    ensures w.texts != [] ==> |Join("\n", w.texts)| + 1 == TotalLength(w.texts) + |w.texts|
  {
    JoinLength("\n", w.texts);
  }

  /** One block: given chunks of its own, or left waiting to share one. */
  method PackBlock(blocks: seq<Block>, p: Packing, w: Pending, n: nat, headers: map<nat, Block>, isSpace: char -> bool)
    returns (q: Packing, v: Pending)
    requires n < |blocks| && Packed(blocks, p) && Faithful(blocks, p) && Waiting(blocks, p, w, n)
    requires forall t :: HeaderIn(headers, t) == HeaderOf(blocks, t)
    ensures Packed(blocks, q) && Faithful(blocks, q) && Waiting(blocks, q, v, n + 1)
            && (q.chunks != [] || v.texts != [])
  {
    hide Packed, Faithful, Waiting, HeaderOf, AsPlanned, Shown, Extends;
    if (blocks[n].TableRow? && blocks[n].row > 0) || |blocks[n].text| > CHUNK_SIZE {
      var flushed := FlushPending(blocks, p, w, n);
      q := PackAlone(blocks, flushed, n, headers, isSpace);
      StaysFaithful(blocks, flushed, q);
      v := Pending(n + 1, [], []);
      NothingWaits(blocks, q, n + 1);
    } else {
      q, v := PackShared(blocks, p, w, n);
    }
  }

  lemma NothingWaits(blocks: seq<Block>, p: Packing, n: nat)
    requires n <= |blocks| && forall b: nat :: b in p.spans <==> b < n
    ensures Waiting(blocks, p, Pending(n, [], []), n)
  {
  }

  lemma OneMoreWaits(blocks: seq<Block>, p: Packing, w: Pending, n: nat)
    requires n < |blocks| && Waiting(blocks, p, w, n) && !Alone(blocks[n])
    requires w.texts != [] ==> |blocks[n].text| + TotalLength(w.texts) + |w.texts| <= CHUNK_SIZE
    ensures Waiting(
              blocks, p, Pending(w.first, w.texts + [blocks[n].text], w.locators + BlockLocators(blocks[n])), n + 1)
  {
    RoomFor(w.texts, blocks[n].text);
    assert TextsOf(blocks, w.first, n + 1) == w.texts + [blocks[n].text];
    hide Join, BlockLocators;
  }

  /** Every chunk within bounds, every block covered, every span true; and every
      block shown as planned, with nothing else in any chunk. */
  method ChunkBlocks(blocks: seq<Block>, isSpace: char -> bool) returns (q: Packing)
    ensures q.chunks != [] && Packed(blocks, q)
    ensures forall b: nat :: b in q.spans <==> b < |blocks|
    ensures if blocks == [] then q.chunks == [Chunk(0, EMPTY_DOCUMENT, [])] else Faithful(blocks, q)
  {
    hide Packed, Faithful, Waiting, HeaderOf, HeaderIn;
    var headers := TableHeaders(blocks);
    var p, w := Packing([], map[]), Pending(0, [], []);
    NothingPacked(blocks);
    for n := 0 to |blocks|
      invariant Packed(blocks, p) && Faithful(blocks, p) && Waiting(blocks, p, w, n)
      invariant n > 0 ==> p.chunks != [] || w.texts != []
      invariant n == 0 ==> p == Packing([], map[]) && w == Pending(0, [], [])
    {
      p, w := PackBlock(blocks, p, w, n, headers, isSpace);
    }
    q := FlushPending(blocks, p, w, |blocks|);
    NothingToShow(blocks, q);
    if q.chunks == [] {
      q := Packing([Chunk(0, EMPTY_DOCUMENT, [])], q.spans);
      EmptyPacked(blocks, q);
    }
  }

  lemma NothingPacked(blocks: seq<Block>)
    ensures var p := Packing([], map[]);
            Packed(blocks, p) && Faithful(blocks, p) && Waiting(blocks, p, Pending(0, [], []), 0)
  {
    NothingWaits(blocks, Packing([], map[]), 0);
  }

  lemma NothingToShow(blocks: seq<Block>, q: Packing)
    requires Faithful(blocks, q) && forall b: nat :: b in q.spans <==> b < |blocks|
    ensures blocks == [] ==> q.chunks == []
  {
    assert |q.chunks| > 0 ==> Shown(q, 0);
  }

  lemma EmptyPacked(blocks: seq<Block>, q: Packing)
    requires q.chunks == [Chunk(0, EMPTY_DOCUMENT, [])] && blocks == []
    requires forall b: nat :: b in q.spans <==> b < |blocks|
    ensures Packed(blocks, q)
  {
  }

  lemma LongerJoin(blocks: seq<Block>, lo: nat, n: nat, hi: nat)
    requires lo < n < hi <= |blocks|
    ensures |Join("\n", TextsOf(blocks, lo, n))| + 1 + |blocks[n].text| <= |Join("\n", TextsOf(blocks, lo, hi))|
    decreases hi - n
  {
    var most := TextsOf(blocks, lo, hi - 1);
    assert TextsOf(blocks, lo, hi) == most + [blocks[hi - 1].text];
    RoomFor(most, blocks[hi - 1].text);
    JoinLength("\n", most);
    if n < hi - 1 { LongerJoin(blocks, lo, n, hi - 1); }
  }

  lemma NotBefore(blocks: seq<Block>, p: Packing, lo: nat, hi: nat, c: nat, d: nat)
    requires Run(blocks, p, lo, hi, c) && lo <= d < hi
    ensures !AllBefore(p.spans[d], c)
  {
    assert p.spans[d][0].chunk == c;
  }

  lemma OneRun(blocks: seq<Block>, p: Packing, lo: nat, hi: nat, from: nat, to: nat, c: nat)
    requires Run(blocks, p, lo, hi, c) && Run(blocks, p, from, to, c) && from < hi && lo < to
    ensures lo == from && hi == to
  {
    hide LocatorsOf, Join, TextsOf;
    if lo < from { NotBefore(blocks, p, lo, hi, c, from - 1); }
    if from < lo { NotBefore(blocks, p, from, to, c, lo - 1); }
    if hi < to { LongerJoin(blocks, lo, hi, to); }
    if to < hi { LongerJoin(blocks, lo, to, hi); }
  }

  /** A block that may share a chunk is in its predecessor's exactly if what is
      in there by then leaves room for it. */
  lemma NeighboursShare(blocks: seq<Block>, q: Packing, n: nat) returns (lo: nat, c: nat)
    requires Packed(blocks, q) && Faithful(blocks, q) && 0 < n < |blocks| && n - 1 in q.spans && n in q.spans
    requires !Alone(blocks[n - 1]) && !Alone(blocks[n])
    ensures lo < n && q.spans[n - 1] == [BlockSpan(c, 0, |blocks[n - 1].text|)]
    ensures forall d :: lo <= d < n ==> d in q.spans && q.spans[d] == [BlockSpan(c, 0, |blocks[d].text|)]
    ensures lo > 0 ==> lo - 1 in q.spans && AllBefore(q.spans[lo - 1], c)
    ensures q.spans[n] == [BlockSpan(c, 0, |blocks[n].text|)] <==>
            |Join("\n", TextsOf(blocks, lo, n))| + 1 + |blocks[n].text| <= CHUNK_SIZE
  {
    hide LocatorsOf, Join, TextsOf, ShownAlone, Shown, Names, Covering, Packed, Run;
    assert InRun(blocks, q, n - 1) && InRun(blocks, q, n) by {
      assert AsPlanned(blocks, q, n - 1) && AsPlanned(blocks, q, n);
    }
    var hi: nat, l: nat, h: nat, d: nat;
    lo, hi, c :| lo <= n - 1 < hi && Run(blocks, q, lo, hi, c);
    l, h, d :| l <= n < h && Run(blocks, q, l, h, d);
    RunsOfNeighbours(blocks, q, n, lo, hi, c, l, h, d);
  }

  lemma RunsOfNeighbours(blocks: seq<Block>, q: Packing, n: nat, lo: nat, hi: nat, c: nat, l: nat, h: nat, d: nat)
    requires Packed(blocks, q) && 0 < n < |blocks| && lo <= n - 1 < hi && Run(blocks, q, lo, hi, c)
    requires l <= n < h && Run(blocks, q, l, h, d)
    ensures lo < n && n - 1 in q.spans && n in q.spans && q.spans[n - 1] == [BlockSpan(c, 0, |blocks[n - 1].text|)]
    ensures forall d :: lo <= d < n ==> d in q.spans && q.spans[d] == [BlockSpan(c, 0, |blocks[d].text|)]
    ensures lo > 0 ==> lo - 1 in q.spans && AllBefore(q.spans[lo - 1], c)
    ensures q.spans[n] == [BlockSpan(c, 0, |blocks[n].text|)] <==>
            |Join("\n", TextsOf(blocks, lo, n))| + 1 + |blocks[n].text| <= CHUNK_SIZE
  {
    hide LocatorsOf, Join, TextsOf, Names, Covering;
    assert |q.chunks[c].text| <= CHUNK_SIZE;
    if hi > n {
      LongerJoin(blocks, lo, n, hi);
    } else {
      assert q.spans[n] == [BlockSpan(d, 0, |blocks[n].text|)] && !Alone(blocks[n]);
      if d == c {
        NotBefore(blocks, q, lo, hi, c, n - 1);
        OneRun(blocks, q, lo, hi, l, h, c);
      }
    }
  }

  // ----- The chunk of a fact ------------------------------------------------------------------------

  predicate Holds(s: BlockSpan, start: nat, end: nat) { s.start <= start && end <= s.end }

  function Overlap(s: BlockSpan, start: nat, end: nat): nat {
    var from := if s.start > start then s.start else start;
    var to := if s.end < end then s.end else end;
    if from < to then to - from else 0
  }

  /** Smaller start first, then smaller end, then smaller identifier. */
  predicate Earlier(s: BlockSpan, t: BlockSpan) {
    s.start < t.start || (s.start == t.start && (s.end < t.end || (s.end == t.end && s.chunk <= t.chunk)))
  }

  /** More of the value, then its beginning, then document order. */
  predicate Preferred(s: BlockSpan, t: BlockSpan, start: nat, end: nat) {
    var x, y := Overlap(s, start, end), Overlap(t, start, end);
    var a, b := s.start <= start < s.end, t.start <= start < t.end;
    x > y || (x == y && ((a && !b) || (a == b && Earlier(s, t))))
  }

  /** Whether `s` is chosen over `t` for the value. */
  predicate Better(s: BlockSpan, t: BlockSpan, start: nat, end: nat) {
    if Holds(s, start, end) then Holds(t, start, end) ==> Earlier(s, t)
    else !Holds(t, start, end) && Preferred(s, t, start, end)
  }

  method ChunkForRange(spans: seq<BlockSpan>, start: nat, end: nat) returns (k: nat)
    requires spans != []
    ensures k < |spans| && forall l :: 0 <= l < |spans| ==> Better(spans[k], spans[l], start, end)
    // A span that holds the whole value goes first, the foremost of several.
    ensures forall t :: t in spans && t.start <= start && end <= t.end ==>
              spans[k].start <= start && end <= spans[k].end && !Foremost(t, spans[k])
    // Otherwise none shows more of it; of equals one with its first character,
    // and then the foremost.
    ensures !(spans[k].start <= start && end <= spans[k].end) ==>
              forall t :: t in spans ==>
                || |Shared(t, start, end)| < |Shared(spans[k], start, end)|
                || (|Shared(t, start, end)| == |Shared(spans[k], start, end)|
                   && (t.start <= start < t.end ==>
                      spans[k].start <= start < spans[k].end && !Foremost(t, spans[k]))
                   && (!(spans[k].start <= start < spans[k].end) ==> !Foremost(t, spans[k])))
  {
    k := 0;
    for l := 1 to |spans|
      invariant k < |spans| && forall m :: 0 <= m < l ==> Better(spans[k], spans[m], start, end)
    {
      if !Better(spans[k], spans[l], start, end) {
        k := l;
      }
    }
    forall t | t in spans
      ensures Better(spans[k], t, start, end)
      ensures |Shared(t, start, end)| == Overlap(t, start, end)
    {
      OverlapCounts(t, start, end);
    }
  }

  ghost predicate Foremost(s: BlockSpan, t: BlockSpan) {
    s.start < t.start || (s.start == t.start && s.end < t.end)
    || (s.start == t.start && s.end == t.end && s.chunk < t.chunk)
  }

  predicate Between(from: int, i: int, until: int) { from <= i < until }

  ghost function Positions(from: int, until: int): set<int> {
    set i: int | from <= i < until && Between(from, i, until)
  }

  /** The characters of the value that the span shows. */
  ghost function Shared(s: BlockSpan, start: nat, end: nat): set<int> {
    Positions(start, end) * Positions(s.start, s.end)
  }

  lemma OverlapCounts(s: BlockSpan, start: nat, end: nat)
    ensures |Shared(s, start, end)| == Overlap(s, start, end)
  {
    var from := if s.start > start then s.start else start;
    var until := if s.end < end then s.end else end;
    assert Shared(s, start, end) == Positions(from, until) by {
      assert forall i :: Between(from, i, until) <==> Between(start, i, end) && Between(s.start, i, s.end);
    }
    if from < until { HowMany(from, until); } else { assert Positions(from, until) == {}; }
  }

  lemma {:induction false} HowMany(from: int, until: int)
    requires from <= until
    ensures |Positions(from, until)| == until - from
    decreases until - from
  {
    if from == until {
      assert Positions(from, until) == {};
    } else {
      HowMany(from, until - 1);
      assert Positions(from, until) == Positions(from, until - 1) + {until - 1} by {
        assert forall i :: Between(from, i, until) <==> Between(from, i, until - 1) || i == until - 1;
      }
    }
  }

  /** A non-empty value always finds a chunk that shows some of it, and one that
      shows all of it whenever a span does. */
  lemma FactFindsItsChunk(blocks: seq<Block>, q: Packing, b: nat, start: nat, end: nat, k: nat)
    requires Packed(blocks, q) && b < |blocks| && b in q.spans && start < end <= |blocks[b].text|
    requires k < |q.spans[b]| && forall l :: 0 <= l < |q.spans[b]| ==> Better(q.spans[b][k], q.spans[b][l], start, end)
    ensures var s := q.spans[b][k]; s.chunk < |q.chunks| && Overlap(s, start, end) > 0
    ensures (exists l :: 0 <= l < |q.spans[b]| && Holds(q.spans[b][l], start, end)) ==>
              Contains(q.chunks[q.spans[b][k].chunk].text, blocks[b].text[start..end])
  {
    var spans, text := q.spans[b], blocks[b].text;
    assert Names(blocks[b], spans[k], q.chunks);
    var l := SpanAt(|text|, spans, start);
    assert Overlap(spans[l], start, end) > 0;
    if m :| 0 <= m < |spans| && Holds(spans[m], start, end) {
      assert Holds(spans[k], start, end);
      PartIsContained(q.chunks[spans[k].chunk].text, text, spans[k], start, end);
    }
  }

  lemma SliceOfSlice(s: string, a: nat, b: nat, c: nat, d: nat)
    requires a <= b <= |s| && c <= d <= b - a
    ensures s[a..b][c..d] == s[a + c..a + d]
  {
    var x, y := s[a..b][c..d], s[a + c..a + d];
    assert |x| == |y|;
    assert forall i :: 0 <= i < |x| ==> x[i] == s[a..b][c + i] == y[i];
    assert x == y;
  }

  lemma PartIsContained(chunk: string, text: string, s: BlockSpan, start: nat, end: nat)
    requires s.start <= start <= end <= s.end <= |text| && Contains(chunk, text[s.start..s.end])
    ensures Contains(chunk, text[start..end])
  {
    var at: nat :| FoundAt(chunk, text[s.start..s.end], at);
    var from := at + (start - s.start);
    SliceOfSlice(text, s.start, s.end, start - s.start, end - s.start);
    SliceOfSlice(chunk, at, at + (s.end - s.start), start - s.start, end - s.start);
    assert FoundAt(chunk, text[start..end], from);
  }

  lemma SpanAt(n: nat, spans: seq<BlockSpan>, p: nat) returns (k: nat)
    requires Covering(n, spans) && p < n
    ensures k < |spans| && spans[k].start <= p < spans[k].end
  {
    k := 0;
    while spans[k].end <= p
      invariant k < |spans| && spans[k].start <= p
      decreases |spans| - k
    {
      k := k + 1;
    }
  }
}
