/** `layout` (Browser.py:387-433): the display list of a text, one entry per
    character that is not a newline, in integer page coordinates, and the
    lowest line reached. Whether a character has an emoji image is the
    parameter `isEmoji`; the image path is a function of the character, so
    an image entry keeps the character. */
module Layouts {

  import opened Common

  const HStep: int := 13
  const VStep: int := 18
  const EmojiSize: int := 18

  /** The extra gap a newline adds below the line step. */
  const ParagraphGap: int := 10

  datatype Kind = Glyph | Image

  /** `(kind, x, y, value)` */
  datatype Item = Item(kind: Kind, x: int, y: int, c: char)

  /** `cursor_x`, `cursor_y` and `biggest_y` */
  datatype Pen = Pen(x: int, y: int, biggest: int)

  /** Where a line starts: the left margin, or the right margin for
      right-to-left text. */
  function LineStart(width: int, rightToLeft: bool): int
  {
    if rightToLeft then width - HStep else HStep
  }

  function Advance(c: char, isEmoji: char -> bool): int
  {
    if isEmoji(c) then EmojiSize else HStep
  }

  /** The line-break test: the next character would cross the left margin
      (right-to-left) or reach the right margin. */
  predicate Breaks(x: int, w: int, width: int, rightToLeft: bool)
  {
    if rightToLeft then x - w < HStep else x + w >= width - HStep
  }

  function Start(width: int, rightToLeft: bool): Pen
  {
    Pen(LineStart(width, rightToLeft), VStep, 0)
  }

  /** One turn of the `for c in text` loop: a newline moves the pen down
      and back to the line start and places nothing; any other character
      is placed, on a new line if it does not fit. */
  function Place(pen: Pen, c: char, width: int, rightToLeft: bool, isEmoji: char -> bool): (Option<Item>, Pen)
  {
    if c == '\n' then (None, Pen(LineStart(width, rightToLeft), pen.y + VStep + ParagraphGap, pen.biggest))
    else
      var w := Advance(c, isEmoji);
      var broke := Breaks(pen.x, w, width, rightToLeft);
      var x := if broke then LineStart(width, rightToLeft) else pen.x;
      var y := if broke then pen.y + VStep else pen.y;
      var item := Item(if isEmoji(c) then Image else Glyph, x, y, c);
      (Some(item), Pen(if rightToLeft then x - w else x + w, y, if y > pen.biggest then y else pen.biggest))
  }

  /** The display list and the pen after the loop has read `text`. */
  function Run(text: string, width: int, rightToLeft: bool, isEmoji: char -> bool): (seq<Item>, Pen)
  {
    if text == [] then ([], Start(width, rightToLeft))
    else
      var (items, pen) := Run(text[..|text| - 1], width, rightToLeft, isEmoji);
      var (item, next) := Place(pen, text[|text| - 1], width, rightToLeft, isEmoji);
      (items + (if item.Some? then [item.value] else []), next)
  }

  /** `layout(text, width, text_right_to_left)` */
  function LayoutText(text: string, width: int, rightToLeft: bool, isEmoji: char -> bool): (seq<Item>, int)
  {
    var (items, pen) := Run(text, width, rightToLeft, isEmoji);
    (items, pen.biggest)
  }

  lemma RunStep(text: string, k: nat, width: int, rightToLeft: bool, isEmoji: char -> bool)
    requires k < |text|
    ensures Run(text[..k + 1], width, rightToLeft, isEmoji) ==
              var (items, pen) := Run(text[..k], width, rightToLeft, isEmoji);
              var (item, next) := Place(pen, text[k], width, rightToLeft, isEmoji);
              (items + (if item.Some? then [item.value] else []), next)
  {
    assert text[..k + 1][..k] == text[..k];
  }

  /** The loop of `layout`. */
  method Layout(text: string, width: int, rightToLeft: bool, isEmoji: char -> bool)
    returns (displayList: seq<Item>, biggestY: int)
    ensures (displayList, biggestY) == LayoutText(text, width, rightToLeft, isEmoji)
  {
    displayList := [];
    var cursorX, cursorY := HStep, VStep;
    biggestY := 0;
    if rightToLeft {
      cursorX := width - HStep;
    }
    for k := 0 to |text|
      invariant (displayList, Pen(cursorX, cursorY, biggestY)) == Run(text[..k], width, rightToLeft, isEmoji)
    {
      RunStep(text, k, width, rightToLeft, isEmoji);
      var c := text[k];
      if c == '\n' {
        cursorY := cursorY + VStep + ParagraphGap;
        cursorX := if rightToLeft then width - HStep else HStep;
        assert displayList + [] == displayList;
        continue;
      }
      var w := if isEmoji(c) then EmojiSize else HStep;
      if rightToLeft {
        if cursorX - w < HStep {
          cursorY := cursorY + VStep;
          cursorX := width - HStep;
        }
      } else {
        if cursorX + w >= width - HStep {
          cursorY := cursorY + VStep;
          cursorX := HStep;
        }
      }
      if isEmoji(c) {
        displayList := displayList + [Item(Image, cursorX, cursorY, c)];
      } else {
        displayList := displayList + [Item(Glyph, cursorX, cursorY, c)];
      }
      cursorX := cursorX + if rightToLeft then -w else w;
      if cursorY > biggestY {
        biggestY := cursorY;
      }
    }
    assert text[..|text|] == text;
  }

  /** The characters of `text` that are not newlines, in order. */
  function Glyphs(text: string): string
  {
    if text == [] then []
    else Glyphs(text[..|text| - 1]) + (if text[|text| - 1] == '\n' then [] else [text[|text| - 1]])
  }

  /** Every character but a newline gets one entry, in order, and an
      image entry exactly when it has an emoji. */
  lemma {:induction false} EntriesFollowText(text: string, width: int, rightToLeft: bool, isEmoji: char -> bool)
    ensures var items := LayoutText(text, width, rightToLeft, isEmoji).0;
            && |items| == |Glyphs(text)|
            && forall k :: 0 <= k < |items| ==>
                 items[k].c == Glyphs(text)[k] && (items[k].kind == Image <==> isEmoji(items[k].c))
  {
    if text != [] {
      EntriesFollowText(text[..|text| - 1], width, rightToLeft, isEmoji);
    }
  }

  /** An entry lies within the margins: at or after the left margin and,
      unless it starts a line, ending before the right margin; mirrored
      for right-to-left text. */
  predicate InMargins(item: Item, width: int, rightToLeft: bool, isEmoji: char -> bool)
  {
    var w := Advance(item.c, isEmoji);
    if rightToLeft then item.x <= width - HStep && (item.x == width - HStep || item.x - w >= HStep)
    else item.x >= HStep && (item.x == HStep || item.x + w < width - HStep)
  }

  /** What holds of the display list and the pen after every turn. */
  predicate Placed(items: seq<Item>, pen: Pen, width: int, rightToLeft: bool, isEmoji: char -> bool)
  {
    && pen.y >= VStep
    && (forall k :: 0 <= k < |items| ==> VStep <= items[k].y <= pen.y)
    && (forall i, j :: 0 <= i < j < |items| ==> items[i].y <= items[j].y)
    && pen.biggest == (if items == [] then 0 else items[|items| - 1].y)
    && (if rightToLeft then pen.x <= width - HStep else pen.x >= HStep)
    && (forall k :: 0 <= k < |items| ==> InMargins(items[k], width, rightToLeft, isEmoji))
  }

  lemma PlaceKeeps(items: seq<Item>, pen: Pen, c: char, width: int, rightToLeft: bool, isEmoji: char -> bool)
    requires Placed(items, pen, width, rightToLeft, isEmoji)
    ensures var (item, next) := Place(pen, c, width, rightToLeft, isEmoji);
            Placed(items + (if item.Some? then [item.value] else []), next, width, rightToLeft, isEmoji)
  {
    var (item, next) := Place(pen, c, width, rightToLeft, isEmoji);
    if item.None? {
      assert items + [] == items;
    } else {
      var all := items + [item.value];
      assert forall k :: 0 <= k < |items| ==> all[k] == items[k];
    }
  }

  lemma {:induction false} RunPlaced(text: string, width: int, rightToLeft: bool, isEmoji: char -> bool)
    ensures var (items, pen) := Run(text, width, rightToLeft, isEmoji);
            Placed(items, pen, width, rightToLeft, isEmoji)
  {
    if text != [] {
      RunPlaced(text[..|text| - 1], width, rightToLeft, isEmoji);
      var (items, pen) := Run(text[..|text| - 1], width, rightToLeft, isEmoji);
      PlaceKeeps(items, pen, text[|text| - 1], width, rightToLeft, isEmoji);
    }
  }

  /** The display list runs down the page: entries never move up, every
      entry lies within the margins, and `biggest_y` is the line of the
      last entry (0 for a text of newlines only), so no entry lies below
      it. */
  lemma LayoutShape(text: string, width: int, rightToLeft: bool, isEmoji: char -> bool)
    ensures var (items, biggestY) := LayoutText(text, width, rightToLeft, isEmoji);
            && biggestY >= 0
            && biggestY == (if items == [] then 0 else items[|items| - 1].y)
            && (forall k :: 0 <= k < |items| ==> VStep <= items[k].y <= biggestY)
            && (forall i, j :: 0 <= i < j < |items| ==> items[i].y <= items[j].y)
            && (forall k :: 0 <= k < |items| ==> InMargins(items[k], width, rightToLeft, isEmoji))
  {
    RunPlaced(text, width, rightToLeft, isEmoji);
  }
}
