/** `docx_text.py`: bounded extraction from paragraphs, arbitrarily nested tables with merged cells,
    and inherited headers and footers, against the unbounded text of the same document. */
module DocxText {
  import opened Text
  import opened Utf8
  import opened BoundedText
  import opened Lines

  datatype Block = Paragraph(text: string) | Table(rows: seq<Row>)

  datatype Row = Row(cells: seq<Cell>)

  /** Cells that alias one another through a horizontal or vertical merge share a node `tc`. */
  datatype Cell = Cell(tc: int, content: seq<Block>)

  // ----- The unbounded text -----

  /** Some cell met earlier is the same node. */
  ghost predicate Alias(before: seq<Cell>, cell: Cell) {
    exists i :: 0 <= i < |before| && before[i].tc == cell.tc
  }

  ghost function CellsOf(rows: seq<Row>): seq<Cell> {
    if |rows| == 0 then [] else CellsOf(rows[..|rows| - 1]) + rows[|rows| - 1].cells
  }

  ghost function CellText(cell: Cell): string
    decreases cell, 0
  {
    Strip(Join(" ", BlockTexts(cell.content)))
  }

  /** The texts of the cells of a row that alias neither a cell in `before` nor one further left. */
  ghost function RowCells(before: seq<Cell>, cells: seq<Cell>): seq<string>
    decreases cells, 1
  {
    if |cells| == 0 then []
    else
      var init, last := cells[..|cells| - 1], cells[|cells| - 1];
      RowCells(before, init) + if Alias(before + init, last) then [] else [CellText(last)]
  }

  predicate HasContent(texts: seq<string>) {
    exists i :: 0 <= i < |texts| && |Strip(texts[i])| > 0
  }

  /** One text for each row that has any content. */
  ghost function TableTexts(rows: seq<Row>): seq<string>
    decreases rows, 2
  {
    if |rows| == 0 then []
    else
      var init, last := rows[..|rows| - 1], rows[|rows| - 1];
      var cells := RowCells(CellsOf(init), last.cells);
      TableTexts(init) + if HasContent(cells) then [Strip(Join(" | ", cells))] else []
  }

  ghost function BlockTexts(container: seq<Block>): seq<string>
    decreases container, 3
  {
    if |container| == 0 then []
    else BlockTexts(container[..|container| - 1]) + OneBlock(container[|container| - 1])
  }

  ghost function OneBlock(block: Block): seq<string>
    decreases block, 2
  {
    match block
    case Paragraph(text) => if |Strip(text)| > 0 then [text] else []
    case Table(rows) => TableTexts(rows)
  }

  // ----- The bounded text -----

  datatype Texts = Yielded(texts: seq<string>) | TooLong

  /** Some text outweighs the budget on its own. */
  ghost predicate Heavy(texts: seq<string>, maximum: nat) {
    exists i :: 0 <= i < |texts| && Size(Strip(texts[i])) > maximum
  }

  /** A bounded generator yields the unbounded texts, or fails because one of them is too heavy. */
  ghost predicate Bounded(r: Texts, texts: seq<string>, maximum: nat) {
    match r
    case Yielded(yielded) => yielded == texts
    case TooLong => Heavy(texts, maximum)
  }

  /** A heavy part makes the join heavy: this is why a failure inside a table is never premature. */
  lemma HeavyPart(separator: string, parts: seq<string>, maximum: nat)
    requires Heavy(parts, maximum)
    ensures Size(Strip(Join(separator, parts))) > maximum
  {
    var i :| 0 <= i < |parts| && Size(Strip(parts[i])) > maximum;
    var before, after := JoinContains(separator, parts, i);
    PartInside(before, parts[i], after);
  }

  lemma PartInside(before: string, part: string, after: string)
    ensures Size(Strip(part)) <= Size(Strip(before + part + after))
  {
    var b, a := StripShape(part);
    assert before + part + after == (before + b) + Strip(part) + (a + after);
    PieceSize(before + b, Strip(part), a + after);
  }

  lemma HeavyAppend(left: seq<string>, right: seq<string>, maximum: nat)
    requires Heavy(left, maximum) || Heavy(right, maximum)
    ensures Heavy(left + right, maximum)
  {
    if Heavy(left, maximum) {
      var i :| 0 <= i < |left| && Size(Strip(left[i])) > maximum;
      assert (left + right)[i] == left[i];
    } else {
      var i :| 0 <= i < |right| && Size(Strip(right[i])) > maximum;
      assert (left + right)[|left| + i] == right[i];
    }
  }

  lemma HeavySingle(text: string, maximum: nat)
    ensures Heavy([text], maximum) <==> Size(Strip(text)) > maximum
  {
    assert [text][0] == text;
  }

  /** A bounded join of bounded parts is exactly the bounded join of the unbounded parts. */
  method JoinBounded(parts: Texts, ghost texts: seq<string>, separator: string, maximum: nat) returns (r: Extracted)
    requires Bounded(parts, texts, maximum)
    ensures r == Fit(Join(separator, texts), maximum)
  {
    match parts {
      case Yielded(yielded) =>
        var joined, _ := BoundedJoin(yielded, separator, maximum);
        r := joined;
      case TooLong =>
        HeavyPart(separator, texts, maximum);
        r := Exceeds;
    }
  }

  /** `_blocks` */
  method Blocks(container: seq<Block>, maximum: nat) returns (r: Texts)
    ensures Bounded(r, BlockTexts(container), maximum)
    decreases container, 3
  {
    var texts: seq<string> := [];
    for k := 0 to |container|
      invariant texts == BlockTexts(container[..k])
    {
      var block := container[k];
      assert container[..k + 1][..k] == container[..k];
      assert BlockTexts(container[..k + 1]) == texts + OneBlock(block);
      match block {
        case Table(rows) =>
          var yielded := TableBlocks(rows, maximum);
          if yielded.TooLong? {
            HeavyAppend(texts, OneBlock(block), maximum);
            HeavyPrefix(container, k + 1, maximum);
            return TooLong;
          }
          texts := texts + yielded.texts;
        case Paragraph(text) =>
          if |Strip(text)| > 0 {
            texts := texts + [text];
          }
      }
    }
    assert container[..|container|] == container;
    r := Yielded(texts);
  }

  lemma {:induction false} HeavyPrefix(container: seq<Block>, k: nat, maximum: nat)
    requires k <= |container| && Heavy(BlockTexts(container[..k]), maximum)
    ensures Heavy(BlockTexts(container), maximum)
    decreases |container| - k
  {
    if k == |container| {
      assert container[..k] == container;
    } else {
      assert container[..k + 1][..k] == container[..k];
      HeavyAppend(BlockTexts(container[..k]), OneBlock(container[k]), maximum);
      HeavyPrefix(container, k + 1, maximum);
    }
  }

  /** The rows of one table, with the set of nodes already met. */
  method TableBlocks(rows: seq<Row>, maximum: nat) returns (r: Texts)
    ensures Bounded(r, TableTexts(rows), maximum)
    decreases rows, 2
  {
    var texts: seq<string>, seen: set<int> := [], {};
    for k := 0 to |rows|
      invariant texts == TableTexts(rows[..k])
      invariant Met(seen, CellsOf(rows[..k]))
    {
      ghost var before := CellsOf(rows[..k]);
      RowAppended(rows, k);
      var cells;
      cells, seen := RowBlocks(rows[k].cells, seen, maximum, before);
      ghost var all := RowCells(before, rows[k].cells);
      if cells.TooLong? {
        HeavyRow(all, maximum);
        HeavyAppend(texts, [Strip(Join(" | ", all))], maximum);
        HeavyRows(rows, k + 1, maximum);
        return TooLong;
      }
      if HasContent(cells.texts) {
        var joined, _ := BoundedJoin(cells.texts, " | ", maximum);
        if joined.Exceeds? {
          StripIdempotent(Join(" | ", all));
          HeavySingle(Strip(Join(" | ", all)), maximum);
          HeavyAppend(texts, [Strip(Join(" | ", all))], maximum);
          HeavyRows(rows, k + 1, maximum);
          return TooLong;
        }
        texts := texts + [joined.text];
      }
    }
    assert rows[..|rows|] == rows;
    r := Yielded(texts);
  }

  /** The nodes in `seen` are those of the cells met so far. */
  ghost predicate Met(seen: set<int>, before: seq<Cell>) {
    forall tc :: tc in seen <==> exists i :: 0 <= i < |before| && before[i].tc == tc
  }

  lemma MetAppend(seen: set<int>, before: seq<Cell>, cell: Cell)
    requires Met(seen, before)
    ensures Met(seen + {cell.tc}, before + [cell])
    ensures cell.tc in seen <==> Alias(before, cell)
  {
    var longer := before + [cell];
    forall tc ensures tc in seen + {cell.tc} <==> exists i :: 0 <= i < |longer| && longer[i].tc == tc {
      if tc in seen {
        var i :| 0 <= i < |before| && before[i].tc == tc;
        assert longer[i].tc == tc;
      } else if tc == cell.tc {
        assert longer[|before|].tc == tc;
      }
    }
  }

  lemma RowAppended(rows: seq<Row>, k: nat)
    requires k < |rows|
    ensures CellsOf(rows[..k + 1]) == CellsOf(rows[..k]) + rows[k].cells
    ensures var cells := RowCells(CellsOf(rows[..k]), rows[k].cells);
      TableTexts(rows[..k + 1]) == TableTexts(rows[..k]) + if HasContent(cells) then [Strip(Join(" | ", cells))] else []
  {
    assert rows[..k + 1][..k] == rows[..k];
  }

  /** A row with a heavy cell is yielded, and is itself heavy. */
  lemma HeavyRow(cells: seq<string>, maximum: nat)
    requires Heavy(cells, maximum)
    ensures HasContent(cells) && Heavy([Strip(Join(" | ", cells))], maximum)
  {
    var i :| 0 <= i < |cells| && Size(Strip(cells[i])) > maximum;
    assert |Strip(cells[i])| > 0;
    HeavyPart(" | ", cells, maximum);
    StripIdempotent(Join(" | ", cells));
    HeavySingle(Strip(Join(" | ", cells)), maximum);
  }

  lemma {:induction false} HeavyRows(rows: seq<Row>, k: nat, maximum: nat)
    requires k <= |rows| && Heavy(TableTexts(rows[..k]), maximum)
    ensures Heavy(TableTexts(rows), maximum)
    decreases |rows| - k
  {
    if k == |rows| {
      assert rows[..k] == rows;
    } else {
      RowAppended(rows, k);
      var cells := RowCells(CellsOf(rows[..k]), rows[k].cells);
      HeavyAppend(TableTexts(rows[..k]), if HasContent(cells) then [Strip(Join(" | ", cells))] else [], maximum);
      HeavyRows(rows, k + 1, maximum);
    }
  }

  /** The cells of one row, skipping nodes met earlier in the table. */
  method RowBlocks(cells: seq<Cell>, met: set<int>, maximum: nat, ghost before: seq<Cell>)
      returns (r: Texts, seen: set<int>)
    requires Met(met, before)
    ensures Bounded(r, RowCells(before, cells), maximum)
    ensures r.Yielded? ==> Met(seen, before + cells)
    decreases cells, 1
  {
    var texts: seq<string> := [];
    seen := met;
    assert before + cells[..0] == before;
    for k := 0 to |cells|
      invariant texts == RowCells(before, cells[..k])
      invariant Met(seen, before + cells[..k])
    {
      var cell := cells[k];
      CellAppended(before, cells, k);
      MetAppend(seen, before + cells[..k], cell);
      if cell.tc !in seen {
        seen := seen + {cell.tc};
        var blocks := Blocks(cell.content, maximum);
        var joined := JoinBounded(blocks, BlockTexts(cell.content), " ", maximum);
        if joined.Exceeds? {
          StripIdempotent(Join(" ", BlockTexts(cell.content)));
          HeavySingle(CellText(cell), maximum);
          HeavyAppend(texts, [CellText(cell)], maximum);
          HeavyCells(before, cells, k + 1, maximum);
          return TooLong, seen;
        }
        texts := texts + [joined.text];
      } else {
        assert seen + {cell.tc} == seen;
      }
    }
    assert cells[..|cells|] == cells;
    r := Yielded(texts);
  }

  lemma CellAppended(before: seq<Cell>, cells: seq<Cell>, k: nat)
    requires k < |cells|
    ensures before + cells[..k + 1] == (before + cells[..k]) + [cells[k]]
    ensures RowCells(before, cells[..k + 1]) ==
      RowCells(before, cells[..k]) + if Alias(before + cells[..k], cells[k]) then [] else [CellText(cells[k])]
  {
    assert cells[..k + 1][..k] == cells[..k];
  }

  lemma {:induction false} HeavyCells(before: seq<Cell>, cells: seq<Cell>, k: nat, maximum: nat)
    requires k <= |cells| && Heavy(RowCells(before, cells[..k]), maximum)
    ensures Heavy(RowCells(before, cells), maximum)
    decreases |cells| - k
  {
    if k == |cells| {
      assert cells[..k] == cells;
    } else {
      CellAppended(before, cells, k);
      HeavyAppend(RowCells(before, cells[..k]),
                  if Alias(before + cells[..k], cells[k]) then [] else [CellText(cells[k])], maximum);
      HeavyCells(before, cells, k + 1, maximum);
    }
  }

  // ----- Headers and footers -----

  /** A header or footer story; `part` is the identity of the package part that holds it. */
  datatype Definition = Definition(part: int, content: seq<Block>)

  /** What a section says about one kind of page: its own story, or the previous section's. */
  datatype Variant = Linked | Own(definition: Definition)

  /** The stories for primary, first and even pages. */
  type Variants = v: seq<Variant> | |v| == 3 witness [Linked, Linked, Linked]

  datatype Section = Section(headers: Variants, footers: Variants, differentFirst: bool) {
    function Stories(inFooter: bool): Variants {
      if inFooter then footers else headers
    }
  }

  datatype Document = Document(body: seq<Block>, sections: seq<Section>, oddAndEven: bool) {
    predicate Active(position: nat)
      requires position < 3 * |sections|
    {
      match position % 3
      case 0 => true
      case 1 => sections[position / 3].differentFirst
      case _ => oddAndEven
    }

    function StoryAt(inFooter: bool, position: nat): Variant
      requires position < 3 * |sections|
    {
      sections[position / 3].Stories(inFooter)[position % 3]
    }
  }

  /** The story in force: the nearest own one for this kind of page, looking back over sections. */
  ghost function InForce(d: Document, inFooter: bool, position: nat): Option<Definition>
    requires position < 3 * |d.sections|
  {
    match d.StoryAt(inFooter, position)
    case Own(definition) => Option.Some(definition)
    case Linked => if position < 3 then None else InForce(d, inFooter, position - 3)
  }

  ghost predicate ShowsPart(d: Document, inFooter: bool, position: nat, part: int)
    requires position < 3 * |d.sections|
  {
    d.Active(position) && InForce(d, inFooter, position).Some? && InForce(d, inFooter, position).value.part == part
  }

  /** The story in force is active here and no earlier position has shown its part. */
  ghost predicate Shown(d: Document, inFooter: bool, position: nat)
    requires position < 3 * |d.sections|
  {
    && d.Active(position)
    && InForce(d, inFooter, position).Some?
    && forall earlier :: 0 <= earlier < position ==>
         !ShowsPart(d, inFooter, earlier, InForce(d, inFooter, position).value.part)
  }

  ghost function StoryTexts(d: Document, inFooter: bool, positions: nat): seq<string>
    requires positions <= 3 * |d.sections|
  {
    if positions == 0 then []
    else
      var last := positions - 1;
      StoryTexts(d, inFooter, last) +
      if Shown(d, inFooter, last) then BlockTexts(InForce(d, inFooter, last).value.content) else []
  }

  /** `effective` holds the latest own story of each kind among the first `positions`. */
  ghost predicate Tracks(effective: map<int, Definition>, d: Document, inFooter: bool, positions: nat)
    requires positions <= 3 * |d.sections|
  {
    && (forall index :: positions <= index < 3 ==> index !in effective)
    && forall position :: 0 <= position < positions && position + 3 >= positions ==>
      (if position % 3 in effective then Option.Some(effective[position % 3])
        else None) == InForce(d, inFooter, position)
  }

  ghost predicate PartsSeen(seen: set<int>, d: Document, inFooter: bool, positions: nat)
    requires positions <= 3 * |d.sections|
  {
    forall part :: part in seen <==> exists earlier :: 0 <= earlier < positions && ShowsPart(d, inFooter, earlier, part)
  }

  /** `_header_footer_blocks`, over the positions section by section. */
  method HeaderFooterBlocks(d: Document, inFooter: bool, maximum: nat) returns (r: Texts)
    ensures Bounded(r, StoryTexts(d, inFooter, 3 * |d.sections|), maximum)
  {
    var texts: seq<string>, effective: map<int, Definition>, seen: set<int> := [], map[], {};
    for position := 0 to 3 * |d.sections|
      invariant texts == StoryTexts(d, inFooter, position)
      invariant Tracks(effective, d, inFooter, position)
      invariant PartsSeen(seen, d, inFooter, position)
    {
      var index, variant := position % 3, d.StoryAt(inFooter, position);
      ghost var was := effective;
      if variant.Own? {
        effective := effective[index := variant.definition];
      }
      TracksNext(was, effective, d, inFooter, position);
      ShownHere(effective, seen, d, inFooter, position);
      ghost var seenBefore := seen;
      if d.Active(position) && index in effective && effective[index].part !in seen {
        seen := seen + {effective[index].part};
        var blocks := Blocks(effective[index].content, maximum);
        if blocks.TooLong? {
          HeavyAppend(texts, BlockTexts(effective[index].content), maximum);
          HeavyStories(d, inFooter, position + 1, maximum);
          return TooLong;
        }
        texts := texts + blocks.texts;
      }
      SeenNext(seenBefore, seen, d, inFooter, position);
    }
    r := Yielded(texts);
  }

  lemma TracksNext(was: map<int, Definition>, effective: map<int, Definition>, d: Document, inFooter: bool,
                   position: nat)
    requires position < 3 * |d.sections| && Tracks(was, d, inFooter, position)
    requires effective == match d.StoryAt(inFooter, position)
      case Own(definition) => was[position % 3 := definition]
      case Linked => was
    ensures Tracks(effective, d, inFooter, position + 1)
  {
    forall p | 0 <= p < position + 1 && p + 3 >= position + 1
      ensures (if p % 3 in effective then Option.Some(effective[p % 3]) else None) == InForce(d, inFooter, p)
    {
      if p < position {
        assert p % 3 != position % 3;
      } else if position >= 3 {
        assert (position - 3) % 3 == position % 3;
        assert InForce(d, inFooter, position - 3) ==
               if position % 3 in was then Option.Some(was[position % 3]) else None;
      }
    }
  }

  /** The two tables decide exactly whether a story is shown. */
  lemma ShownHere(effective: map<int, Definition>, seen: set<int>, d: Document, inFooter: bool, position: nat)
    requires position < 3 * |d.sections|
    requires Tracks(effective, d, inFooter, position + 1) && PartsSeen(seen, d, inFooter, position)
    ensures InForce(d, inFooter, position) ==
      if position % 3 in effective then Option.Some(effective[position % 3]) else None
    ensures Shown(d, inFooter, position) <==>
      d.Active(position) && position % 3 in effective && effective[position % 3].part !in seen
  {
  }

  lemma SeenNext(was: set<int>, seen: set<int>, d: Document, inFooter: bool, position: nat)
    requires position < 3 * |d.sections| && PartsSeen(was, d, inFooter, position)
    requires seen == was + if d.Active(position) && InForce(d, inFooter, position).Some?
                           then {InForce(d, inFooter, position).value.part} else {}
    ensures PartsSeen(seen, d, inFooter, position + 1)
  {
    forall part
      ensures part in seen <==> exists earlier :: 0 <= earlier < position + 1 && ShowsPart(d, inFooter, earlier, part)
    {
      if part in was {
        var earlier :| 0 <= earlier < position && ShowsPart(d, inFooter, earlier, part);
        assert 0 <= earlier < position + 1 && ShowsPart(d, inFooter, earlier, part);
      } else if part in seen {
        assert ShowsPart(d, inFooter, position, part);
      }
    }
  }

  lemma {:induction false} HeavyStories(d: Document, inFooter: bool, k: nat, maximum: nat)
    requires k <= 3 * |d.sections| && Heavy(StoryTexts(d, inFooter, k), maximum)
    ensures Heavy(StoryTexts(d, inFooter, 3 * |d.sections|), maximum)
    decreases 3 * |d.sections| - k
  {
    if k < 3 * |d.sections| {
      HeavyAppend(StoryTexts(d, inFooter, k),
                  if Shown(d, inFooter, k) then BlockTexts(InForce(d, inFooter, k).value.content) else [], maximum);
      HeavyStories(d, inFooter, k + 1, maximum);
    }
  }

  // ----- The document -----

  ghost function Strips(texts: seq<string>): (stripped: seq<string>)
    ensures |stripped| == |texts| && forall i :: 0 <= i < |texts| ==> stripped[i] == Strip(texts[i])
  {
    seq(|texts|, i requires 0 <= i < |texts| => Strip(texts[i]))
  }

  ghost function AllTexts(d: Document): seq<string> {
    StoryTexts(d, false, 3 * |d.sections|) + BlockTexts(d.body) + StoryTexts(d, true, 3 * |d.sections|)
  }

  /** The text of a document without any limit: headers, body, footers; one stripped line each. */
  ghost function PlainText(d: Document): string {
    Lines.Document(Strips(AllTexts(d)))
  }

  lemma HeavyDocument(texts: seq<string>, maximum: nat)
    requires Heavy(texts, maximum)
    ensures Size(Lines.Document(Strips(texts))) > maximum
  {
    var i :| 0 <= i < |texts| && Size(Strip(texts[i])) > maximum;
    DocumentContains(Strips(texts), i);
  }

  /** The calls of `add` for one generator: `parts` and `used` carry over to the next. */
  method AddAll(texts: seq<string>, parts: seq<string>, used: nat, maximum: nat, ghost added: seq<string>)
      returns (exceeds: bool, parts': seq<string>, used': nat)
    requires parts == NonEmpty(Strips(added)) && used == Size(Lines.Document(Strips(added))) <= maximum
    ensures !exceeds ==> parts' == NonEmpty(Strips(added + texts))
    ensures !exceeds ==> used' == Size(Lines.Document(Strips(added + texts))) <= maximum
    ensures exceeds ==> Size(Lines.Document(Strips(added + texts))) > maximum
  {
    exceeds, parts', used' := false, parts, used;
    assert added + texts[..0] == added;
    for k := 0 to |texts|
      invariant !exceeds
      invariant parts' == NonEmpty(Strips(added + texts[..k]))
      invariant used' == Size(Lines.Document(Strips(added + texts[..k]))) <= maximum
    {
      var text := Strip(texts[k]);
      AddOne(added, texts, k);
      if |text| > 0 {
        used' := used' + Size(text) + if |parts'| > 0 then 1 else 0;
        if used' > maximum {
          return true, parts', used';
        }
        parts' := parts' + [text];
      }
    }
    assert texts[..|texts|] == texts;
  }

  lemma AddOne(added: seq<string>, texts: seq<string>, k: nat)
    requires k < |texts|
    ensures var before, text := Strips(added + texts[..k]), Strip(texts[k]);
      && Strips(added + texts[..k + 1]) == before + [text]
      && NonEmpty(Strips(added + texts[..k + 1])) == NonEmpty(before) + (if |text| == 0 then [] else [text])
      && Size(Lines.Document(Strips(added + texts[..k + 1]))) ==
         Size(Lines.Document(before)) + Added(|NonEmpty(before)| == 0, text)
    ensures Size(Lines.Document(Strips(added + texts[..k + 1]))) <= Size(Lines.Document(Strips(added + texts)))
  {
    StripsOneMore(added, texts, k);
    StripsPrefix(added, texts, k + 1);
    OneMoreText(Strips(added + texts[..k]), Strip(texts[k]), Strips(added + texts[..k + 1]), Strips(added + texts));
  }

  lemma OneMoreText(before: seq<string>, text: string, after: seq<string>, all: seq<string>)
    requires after == before + [text] && after <= all
    ensures NonEmpty(after) == NonEmpty(before) + (if |text| == 0 then [] else [text])
    ensures Size(Lines.Document(after)) == Size(Lines.Document(before)) + Added(|NonEmpty(before)| == 0, text)
    ensures Size(Lines.Document(after)) <= Size(Lines.Document(all))
  {
    NonEmptyGrows(before, text);
    DocumentGrows(before, text);
    assert all[..|after|] == after;
    DocumentMonotone(all, |after|);
  }

  lemma StripsOneMore(added: seq<string>, texts: seq<string>, k: nat)
    requires k < |texts|
    ensures Strips(added + texts[..k + 1]) == Strips(added + texts[..k]) + [Strip(texts[k])]
  {
    assert added + texts[..k + 1] == added + texts[..k] + [texts[k]];
  }

  lemma StripsPrefix(added: seq<string>, texts: seq<string>, k: nat)
    requires k <= |texts|
    ensures Strips(added + texts[..k]) <= Strips(added + texts)
  {
    var few, all := Strips(added + texts[..k]), Strips(added + texts);
    assert forall i :: 0 <= i < |few| ==> (added + texts[..k])[i] == (added + texts)[i];
    assert forall i :: 0 <= i < |few| ==> few[i] == all[i];
  }

  /** The texts `more` come next, and either they or their sum exceeds the budget. */
  lemma Overrun(added: seq<string>, more: seq<string>, rest: seq<string>, maximum: nat)
    requires Heavy(more, maximum) || Size(Lines.Document(Strips(added + more))) > maximum
    ensures Size(Lines.Document(Strips(added + more + rest))) > maximum
  {
    if Heavy(more, maximum) {
      HeavyAppend(added, more, maximum);
      HeavyDocument(added + more, maximum);
    }
    assert Strips(added + more + rest)[..|added + more|] == Strips(added + more);
    DocumentMonotone(Strips(added + more + rest), |added + more|);
  }

  /** `extract_docx_text` returns exactly the unlimited text when that fits, and fails otherwise:
      no generator and no inner join fails on a document that fits as a whole. */
  method ExtractDocxText(d: Document, maximum: nat) returns (r: Extracted)
    ensures r == if Size(PlainText(d)) <= maximum then Fits(PlainText(d)) else Exceeds
  {
    ghost var headers, body, footers :=
      StoryTexts(d, false, 3 * |d.sections|), BlockTexts(d.body), StoryTexts(d, true, 3 * |d.sections|);
    ghost var none: seq<string> := [];
    assert AllTexts(d) == none + headers + (body + footers);
    assert AllTexts(d) == headers + body + footers + none;
    var texts := HeaderFooterBlocks(d, false, maximum);
    if texts.TooLong? {
      Overrun(none, headers, body + footers, maximum);
      return Exceeds;
    }
    var exceeds, parts, used := AddAll(texts.texts, [], 0, maximum, none);
    assert none + headers == headers;
    if exceeds {
      Overrun(none, headers, body + footers, maximum);
      return Exceeds;
    }
    texts := Blocks(d.body, maximum);
    if texts.TooLong? {
      Overrun(headers, body, footers, maximum);
      return Exceeds;
    }
    exceeds, parts, used := AddAll(texts.texts, parts, used, maximum, headers);
    if exceeds {
      Overrun(headers, body, footers, maximum);
      return Exceeds;
    }
    texts := HeaderFooterBlocks(d, true, maximum);
    if texts.TooLong? {
      Overrun(headers + body, footers, none, maximum);
      return Exceeds;
    }
    exceeds, parts, used := AddAll(texts.texts, parts, used, maximum, headers + body);
    if exceeds {
      return Exceeds;
    }
    r := Fits(Join("\n", parts));
  }
}
