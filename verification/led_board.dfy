/** The scrolling LED board of `board.js`: its settings merge, the `init`
    reset, and the part of `anim` that decides whether a frame runs (at most
    one per 500 ms) and whether the message changed. Measuring and drawing
    text are not modelled. */
module LedBoard {
  import opened Common

  /** A setting value: a number or a string. */
  datatype Value = Num(n: real) | Str(s: string)

  type Settings = map<string, Value>

  const ThrottleMs: int := 500

  /** The default settings, in declaration order. */
  const DefaultKeys: seq<string> := [
    "FONT_SIZE", "FONT_COLOR", "SCROLL_SPEED", "MASK_SIZE_RATIO",
    "MASK_LED_RADIUS_RATE", "RATE_MARGIN", "RATE_POSITION"]

  const Defaults: Settings := map[
    "FONT_SIZE" := Num(16.0),
    "FONT_COLOR" := Str("#eb0"),
    "SCROLL_SPEED" := Num(1.0),
    "MASK_SIZE_RATIO" := Num(8.0),
    "MASK_LED_RADIUS_RATE" := Num(0.4),
    "RATE_MARGIN" := Num(1.5),
    "RATE_POSITION" := Num(0.25)]

  /** A board. `currentDate` and `currentMessage` are missing (`undefined`)
      until `init`; `null` and `undefined` compare equal under `!=`, so both
      are `None`. */
  datatype Board = Board(
    settings: Settings,
    message: Option<string>,
    currentDate: Option<int>,
    currentMessage: Option<string>)

  /** The `for (let key in this.settings)` loop over `keys`: every listed key
      the caller also gave takes the caller's value. */
  function MergeKeys(s: Settings, given: Settings, keys: seq<string>): (r: Settings)
    requires forall k :: k in keys ==> k in s
    ensures r.Keys == s.Keys
    ensures forall k :: k in r ==> r[k] == if k in keys && k in given then given[k] else s[k]
    decreases |keys|
  {
    if |keys| == 0 then s
    else
      var k := keys[0];
      var s' := if k in given then s[k := given[k]] else s;
      assert forall j :: j in keys[1..] ==> j in keys;
      MergeKeys(s', given, keys[1..])
  }

  lemma DefaultKeysAreDefaults()
    ensures forall k :: k in DefaultKeys <==> k in Defaults
  {
  }

  /** `new Board(settings)`: the defaults, overridden by the caller's value for
      every default key the caller gave; keys the caller gave that are not
      defaults are dropped. No message yet. */
  function NewBoard(given: Settings): (b: Board)
    ensures b.settings.Keys == Defaults.Keys
    ensures forall k :: k in Defaults && k in given ==> b.settings[k] == given[k]
    ensures forall k :: k in Defaults && k !in given ==> b.settings[k] == Defaults[k]
    ensures b.message == None && b.currentDate == None && b.currentMessage == None
  {
    DefaultKeysAreDefaults();
    Board(MergeKeys(Defaults, given, DefaultKeys), None, None, None)
  }

  /** `init(div)`: resets the frame clock and forgets the drawn message. */
  function Init(b: Board): (r: Board)
    ensures r.currentDate == Some(-1) && r.currentMessage == None
    ensures r.settings == b.settings && r.message == b.message
  {
    b.(currentDate := Some(-1), currentMessage := None)
  }

  /** `now - this.currentDate < 500`; with no date yet the difference is NaN and
      the test fails. */
  predicate Throttled(b: Board, now: int) {
    b.currentDate.Some? && now - b.currentDate.value < ThrottleMs
  }

  /** The result of one `anim()` call: the new board and whether the message
      changed (so the text canvas is rebuilt). */
  datatype Frame = Frame(board: Board, remeasure: bool)

  /** `anim()` at time `now` (`Date.now()`): within 500 ms of the last frame it
      returns at once; otherwise it records `now` and, when the message
      differs from the one last drawn, records the new message. */
  function Anim(b: Board, now: int): (f: Frame)
    ensures Throttled(b, now) ==> f.board == b && !f.remeasure
    ensures !Throttled(b, now) ==>
      f.board.currentDate == Some(now) && f.board.currentMessage == b.message
    ensures f.remeasure <==> !Throttled(b, now) && b.message != b.currentMessage
    ensures f.board.settings == b.settings && f.board.message == b.message
  {
    if Throttled(b, now) then Frame(b, false)
    else
      var r := b.(currentDate := Some(now));
      if b.message != b.currentMessage then Frame(r.(currentMessage := b.message), true)
      else Frame(r, false)
  }

  /** Two frames that both run are at least 500 ms apart. */
  lemma FramesSpaced(b: Board, t1: int, t2: int)
    requires !Throttled(b, t1)
    requires !Throttled(Anim(b, t1).board, t2)
    ensures t2 - t1 >= ThrottleMs
  {
  }

  /** Once a frame has run, the message is not remeasured again until it
      changes. */
  lemma NoRemeasureWithoutChange(b: Board, t1: int, t2: int)
    requires !Throttled(b, t1)
    ensures !Anim(Anim(b, t1).board, t2).remeasure
  {
  }

  /** After `init`, the first frame runs unless the clock reads below 499
      (for instance, any real `Date.now()`), and it remeasures exactly when a
      message is set. */
  lemma FirstFrameAfterInit(b: Board, now: int)
    requires now >= ThrottleMs - 1
    ensures !Throttled(Init(b), now)
    ensures Anim(Init(b), now).remeasure <==> b.message.Some?
  {
  }

  /** The options the page passes for `board1` and `board2`. */
  const Board1Options: Settings := map["FONT_SIZE" := Num(16.0), "SCROLL_SPEED" := Num(0.2)]
  const Board2Options: Settings := map["FONT_SIZE" := Num(12.0), "MASK_SIZE_RATIO" := Num(10.0),
                                       "FONT_COLOR" := Str("#f0f"), "SCROLL_SPEED" := Num(0.4)]

  /** `board1` keeps the default colour and mask ratio and takes its own
      scroll speed. */
  lemma PageBoard1()
    ensures NewBoard(Board1Options).settings["SCROLL_SPEED"] == Num(0.2)
    ensures NewBoard(Board1Options).settings["FONT_COLOR"] == Str("#eb0")
    ensures NewBoard(Board1Options).settings["MASK_SIZE_RATIO"] == Num(8.0)
  {
    var o := Board1Options;
    assert "FONT_COLOR" !in o && "MASK_SIZE_RATIO" !in o && "SCROLL_SPEED" in o;
    assert "FONT_COLOR" in Defaults && Defaults["FONT_COLOR"] == Str("#eb0");
    assert "MASK_SIZE_RATIO" in Defaults && Defaults["MASK_SIZE_RATIO"] == Num(8.0);
  }

  /** `board2` takes its own font size and colour and keeps the default
      margin. */
  lemma PageBoard2()
    ensures NewBoard(Board2Options).settings["FONT_SIZE"] == Num(12.0)
    ensures NewBoard(Board2Options).settings["FONT_COLOR"] == Str("#f0f")
    ensures NewBoard(Board2Options).settings["RATE_MARGIN"] == Num(1.5)
  {
    var o := Board2Options;
    assert "RATE_MARGIN" !in o;
    assert "FONT_SIZE" in o && o["FONT_SIZE"] == Num(12.0);
    assert "FONT_COLOR" in o && o["FONT_COLOR"] == Str("#f0f");
    assert "FONT_SIZE" in Defaults && "FONT_COLOR" in Defaults;
    assert "RATE_MARGIN" in Defaults && Defaults["RATE_MARGIN"] == Num(1.5);
  }
}
