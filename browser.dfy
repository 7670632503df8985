/** The `Browser` window (Browser.py:436-545) without its Tk widgets: the
    scroll position and its clamping by the arrow keys and the wheel, the
    relayout on a resize, and `load`, which
    resets the redirect counter, fetches, lexes and lays out a page. */
module Window {

  import opened Common
  import Urls
  import Fetch
  import Client
  import Lexer
  import opened Layouts

  const ScrollStep: int := 100
  const ScrollbarWidth: int := 12

  /** `max(0, (biggest_y + VSTEP) - height)`: how far the page can scroll. */
  function MaxScroll(biggestY: int, height: int): (m: int)
    ensures m >= 0 && m >= biggestY + VStep - height
    ensures m == 0 || m == biggestY + VStep - height
  {
    if biggestY + VStep - height > 0 then biggestY + VStep - height else 0
  }

  /** `scrolldown`: one step down unless that passes the bottom. */
  function Down(scroll: int, maxScroll: int): int
  {
    if scroll + ScrollStep > maxScroll then scroll else scroll + ScrollStep
  }

  /** `scrollup`: one step up unless that passes the top. */
  function Up(scroll: int): int
  {
    if scroll - ScrollStep < 0 then scroll else scroll - ScrollStep
  }

  /** A scroll position the arrow keys can reach from the top: on the
      page and a whole number of steps down. */
  predicate OnStep(scroll: int)
  {
    scroll >= 0 && scroll % ScrollStep == 0
  }

  /** Scrolling down never goes past the bottom unless it was already
      there, only ever moves by one step, and keeps the position on a
      step. */
  lemma DownBounded(scroll: int, maxScroll: int)
    ensures var s := Down(scroll, maxScroll);
            && (s == scroll || s == scroll + ScrollStep)
            && (s != scroll ==> s <= maxScroll)
            && (OnStep(scroll) ==> OnStep(s))
            && (scroll <= maxScroll ==> s <= maxScroll)
  {
  }

  /** Scrolling up never goes above the top and keeps the position on a
      step. */
  lemma UpBounded(scroll: int)
    ensures var s := Up(scroll);
            && (s == scroll || s == scroll - ScrollStep)
            && (scroll >= 0 ==> s >= 0)
            && (OnStep(scroll) ==> OnStep(s))
  {
  }

  /** `max(0, min(scroll + amount, max_scroll))`: the mouse wheel moves by
      any amount, but the position lands on the page, where it was aimed
      when that is on the page and on the nearer end otherwise. */
  function WheelScroll(scroll: int, amount: int, maxScroll: int): (s: int)
    requires maxScroll >= 0
    ensures 0 <= s <= maxScroll
    ensures 0 <= scroll + amount <= maxScroll ==> s == scroll + amount
    ensures scroll + amount < 0 ==> s == 0
    ensures scroll + amount > maxScroll ==> s == maxScroll
  {
    var lower := if scroll + amount < maxScroll then scroll + amount else maxScroll;
    if 0 > lower then 0 else lower
  }

  /** The two layout passes of `load` and `resize`: the text is laid out
      at the full width, and laid out again narrower by the scrollbar's
      width when that first layout is taller than the window. */
  function PageLayout(text: string, width: int, height: int, rightToLeft: bool, isEmoji: char -> bool): (seq<Item>, int)
  {
    var (_, tempBiggestY) := LayoutText(text, width, rightToLeft, isEmoji);
    if tempBiggestY + VStep > height then LayoutText(text, width - ScrollbarWidth, rightToLeft, isEmoji)
    else LayoutText(text, width, rightToLeft, isEmoji)
  }

  /** When the page is taller than the window the text keeps clear of the
      scrollbar: every entry lies within the margins of the narrowed
      width. */
  lemma PageClearsScrollbar(text: string, width: int, height: int, rightToLeft: bool, isEmoji: char -> bool)
    requires LayoutText(text, width, rightToLeft, isEmoji).1 + VStep > height
    ensures var items := PageLayout(text, width, height, rightToLeft, isEmoji).0;
            forall k :: 0 <= k < |items| ==> InMargins(items[k], width - ScrollbarWidth, rightToLeft, isEmoji)
  {
    LayoutShape(text, width - ScrollbarWidth, rightToLeft, isEmoji);
  }

  class Browser {
    /** The constructor argument `text_left_to_right`, which holds the
        right-to-left flag of the URL despite its name. */
    const rightToLeft: bool
    /** Whether a character has an emoji image. */
    const isEmoji: char -> bool
    var scroll: int
    var width: int
    var height: int
    /** `self.text`, unset until a page loads */
    var text: Option<string>
    var displayList: seq<Item>
    /** `self.biggest_y`, unset until a page loads */
    var biggestY: Option<int>

    /** Browser.py:437-444, without the window and canvas. */
    constructor (rightToLeft: bool, isEmoji: char -> bool)
      ensures this.rightToLeft == rightToLeft && this.isEmoji == isEmoji
      ensures scroll == 0 && width == 800 && height == 600
      ensures text.None? && displayList == [] && biggestY.None?
    {
      this.rightToLeft := rightToLeft;
      this.isEmoji := isEmoji;
      scroll := 0;
      width := 800;
      height := 600;
      text := None;
      displayList := [];
      biggestY := None;
    }

    /** `scrolldown` (Browser.py:475-479). Before a page has loaded
        `biggest_y` does not exist and the handler fails without
        scrolling. */
    method ScrollDown()
      modifies this`scroll
      ensures biggestY.None? ==> scroll == old(scroll)
      ensures biggestY.Some? ==> scroll == Down(old(scroll), MaxScroll(biggestY.value, height))
    {
      if biggestY.None? {
        return;
      }
      var maxScroll := if 0 > biggestY.value + VStep - height then 0 else biggestY.value + VStep - height;
      if scroll + ScrollStep > maxScroll {
        return;
      }
      scroll := scroll + ScrollStep;
    }

    /** `scrollup` (Browser.py:481-484) */
    method ScrollUp()
      modifies this`scroll
      ensures scroll == Up(old(scroll))
    {
      if scroll - ScrollStep < 0 {
        return;
      }
      scroll := scroll - ScrollStep;
    }

    /** `mouseWheelScroll` (Browser.py:460-473) on Linux and macOS, where the
        wheel delta counts whole steps; like `scrolldown` it fails before a
        page has loaded. */
    method MouseWheelScroll(delta: int)
      modifies this`scroll
      ensures biggestY.None? ==> scroll == old(scroll)
      ensures biggestY.Some? ==> scroll == WheelScroll(old(scroll), delta * ScrollStep, MaxScroll(biggestY.value, height))
    {
      if biggestY.None? {
        return;
      }
      var newScroll := scroll + delta * ScrollStep;
      var maxScroll := if 0 > biggestY.value + VStep - height then 0 else biggestY.value + VStep - height;
      var lower := if newScroll < maxScroll then newScroll else maxScroll;
      scroll := if 0 > lower then 0 else lower;
    }

    /** `resize` (Browser.py:487-498), without drawing: the new size is kept
        and a loaded page is laid out again for it. */
    method Resize(newWidth: int, newHeight: int)
      modifies this`width, this`height, this`displayList, this`biggestY
      ensures width == newWidth && height == newHeight
      ensures text.Some? ==>
                biggestY.Some? && (displayList, biggestY.value) == PageLayout(text.value, newWidth, newHeight, rightToLeft, isEmoji)
      ensures text.None? ==> displayList == old(displayList) && biggestY == old(biggestY)
    {
      width, height := newWidth, newHeight;
      if text.None? {
        return;
      }
      var _, tempBiggestY := Layout(text.value, width, rightToLeft, isEmoji);
      var items, y;
      if tempBiggestY + VStep > height {
        items, y := Layout(text.value, width - ScrollbarWidth, rightToLeft, isEmoji);
      } else {
        items, y := Layout(text.value, width, rightToLeft, isEmoji);
      }
      displayList, biggestY := items, Some(y);
    }

    /** `load` (Browser.py:533-544), without drawing: the redirect counter
        goes back to 0, the page is requested with the default user agent
        (an exception leaves the window as it was), then lexed and laid
        out. */
    method Load(session: Client.Session, env: Fetch.Env, now: int, url: Urls.Url) returns (body: Result<string>)
      modifies this, session
      ensures var (r, g) := Fetch.Request(env, Fetch.DefaultUserAgent, now, url, old(session.Globals()).(redirects := 0));
              body == r && session.Globals() == g
      ensures body.Ok? ==>
                && text == Some(Lexer.LexText(body.value, url.viewSource, rightToLeft))
                && biggestY.Some?
                && (displayList, biggestY.value) == PageLayout(text.value, width, height, rightToLeft, isEmoji)
      ensures body.Err? ==> text == old(text) && displayList == old(displayList) && biggestY == old(biggestY)
      ensures scroll == old(scroll) && width == old(width) && height == old(height)
    {
      session.redirects := 0;
      body := session.Request(env, Fetch.DefaultUserAgent, now, url);
      if body.Err? {
        return;
      }
      var lexed := Lexer.Lex(body.value, url.viewSource, rightToLeft);
      text := Some(lexed);
      var _, tempBiggestY := Layout(lexed, width, rightToLeft, isEmoji);
      var items, y;
      if tempBiggestY + VStep > height {
        items, y := Layout(lexed, width - ScrollbarWidth, rightToLeft, isEmoji);
      } else {
        items, y := Layout(lexed, width, rightToLeft, isEmoji);
      }
      displayList, biggestY := items, Some(y);
    }
  }
}
