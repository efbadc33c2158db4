/** The emoji presenter: the pool of overlaid glyphs that the per-frame
    callback `eachFrame` of src/index.js hides, creates, shows and restyles. */
module Presenter {
  import opened Wrappers
  import opened Expressions

  datatype Point = Point(x: real, y: real)

  /** Only the size of the detection box is read. */
  datatype Box = Box(width: real, height: real)

  /** One resized detection result: its box, the nose point (`getNose()[1]`),
      the mouth point (`getMouth()[3]`) and its expression scores. */
  datatype Detection = Detection(box: Box, nose: Point, mouth: Point, scores: seq<Score>)

  /** The fields of a glyph that one detection overwrites. `tilt` is the
      vector nose - mouth whose angle becomes the glyph's rotation. */
  datatype Style = Style(text: Option<string>, fontSize: real, originY: real, position: Point, tilt: Point)

  /** `Math.max` on two numbers. */
  function Max(a: real, b: real): (m: real)
    ensures m >= a && m >= b
    ensures m == a || m == b
  {
    if a >= b then a else b
  }

  /** What detection `d` makes its glyph look like, or `None` when `getBest`
      throws on an empty score map before any field is written. */
  function Restyle(d: Detection): (r: Option<Style>)
    ensures r.None? <==> d.scores == []
  {
    if d.scores == [] then None
    else
      var size := Max(d.box.width, d.box.height);
      Some(Style(FaceFor(d.scores[BestIndex(d.scores)].name), size, -size / 2.0, d.nose,
                Point(d.nose.x - d.mouth.x, d.nose.y - d.mouth.y)))
  }

  /** The fields a detection with scores sets: the face of its first
      best-scoring expression, a font size that covers the box, an origin
      half a font size up, the nose as position and the nose-to-mouth vector
      as tilt. */
  lemma RestyleFields(d: Detection)
    requires d.scores != []
    ensures Restyle(d).value.text == FaceFor(GetBest(d.scores).value)
    ensures Restyle(d).value.fontSize >= d.box.width && Restyle(d).value.fontSize >= d.box.height
    ensures Restyle(d).value.fontSize == d.box.width || Restyle(d).value.fontSize == d.box.height
    ensures 2.0 * Restyle(d).value.originY + Restyle(d).value.fontSize == 0.0
    ensures Restyle(d).value.position == d.nose
    ensures Restyle(d).value.tilt.x + d.mouth.x == d.nose.x && Restyle(d).value.tilt.y + d.mouth.y == d.nose.y
  {
  }

  /** The detection list of a frame; a missing list counts as empty. */
  function Detections(results: Option<seq<Detection>>): seq<Detection>
  {
    if results.Some? then results.value else []
  }

  /** The style each detection of a frame asks for, in detection order. */
  function Looks(ds: seq<Detection>): (r: seq<Option<Style>>)
    ensures |r| == |ds|
  {
    if ds == [] then [] else [Restyle(ds[0])] + Looks(ds[1..])
  }

  /** Position `j` of `Looks(ds)` is the style of detection `j`. */
  lemma {:induction false} LooksAt(ds: seq<Detection>, j: nat)
    requires j < |ds|
    ensures Looks(ds)[j] == Restyle(ds[j])
  {
    if j > 0 {
      LooksAt(ds[1..], j - 1);
    }
  }

  /** `Looks(ds)` is the style of each detection, position by position. */
  lemma LooksEach(ds: seq<Detection>)
    ensures forall j :: 0 <= j < |ds| ==> Looks(ds)[j] == Restyle(ds[j])
  {
    forall j | 0 <= j < |ds|
      ensures Looks(ds)[j] == Restyle(ds[j])
    {
      LooksAt(ds, j);
    }
  }

  /** The first position without a style (where `getBest` throws), or the
      length when there is none. */
  function Missing(looks: seq<Option<Style>>): (k: nat)
    ensures k <= |looks|
    ensures forall j :: 0 <= j < k ==> looks[j].Some?
    ensures k < |looks| ==> looks[k].None?
  {
    if looks == [] || looks[0].None? then 0 else 1 + Missing(looks[1..])
  }

  /** How many slots are shown: all of them, or those up to and including the
      one without a style. */
  function Reach(looks: seq<Option<Style>>): (n: nat)
    ensures n <= |looks|
    ensures Missing(looks) < |looks| ==> n == Missing(looks) + 1
    ensures Missing(looks) == |looks| ==> n == |looks|
  {
    if Missing(looks) < |looks| then Missing(looks) + 1 else |looks|
  }

  /** The index at which `forEach` stops: the first detection whose score map
      is empty, or the number of detections. */
  function Halt(ds: seq<Detection>): (k: nat)
    ensures k <= |ds|
    ensures forall j :: 0 <= j < k ==> ds[j].scores != []
    ensures k < |ds| ==> ds[k].scores == []
  {
    LooksEach(ds);
    Missing(Looks(ds))
  }

  /** How many slots a frame shows. */
  function Shown(ds: seq<Detection>): (n: nat)
    ensures n <= |ds|
    ensures n == if Halt(ds) < |ds| then Halt(ds) + 1 else |ds|
  {
    Reach(Looks(ds))
  }

  function MaxLength(a: nat, b: nat): nat
  {
    if a >= b then a else b
  }

  /** The style of a Text just created by `new Text(undefined, "", emojisOptions)`:
      empty text; the other fields stand for pencil.js defaults. */
  const NewStyle: Style := Style(Some(""), 0.0, 0.0, Point(0.0, 0.0), Point(0.0, 0.0))

  /** What a slot of the pool shows: whether its glyph is visible, and how. */
  datatype Slot = Slot(visible: bool, style: Style)

  /** The pool after a (partial) frame, and whether the frame ran to its end. */
  datatype Outcome = Outcome(slots: seq<Slot>, completed: bool)

  /** `emojis.forEach(emoji => emoji.hide())` on the slot values. */
  function Hidden(slots: seq<Slot>): (r: seq<Slot>)
    ensures |r| == |slots|
    ensures forall j :: 0 <= j < |slots| ==> r[j] == Slot(false, slots[j].style)
  {
    seq(|slots|, j requires 0 <= j < |slots| => Slot(false, slots[j].style))
  }

  /** The `forEach` callback at slot `index` for a detection asking for
      `look`: take or create the slot, show it, and restyle it unless
      `getBest` threw (`look` is `None`). */
  function Step(slots: seq<Slot>, index: nat, look: Option<Style>): Outcome
    requires index <= |slots|
  {
    var before := if index < |slots| then slots[index].style else NewStyle;
    var shown := Slot(true, if look.Some? then look.value else before);
    Outcome(if index < |slots| then slots[index := shown] else slots + [shown], look.Some?)
  }

  /** `forEach` from position `i` on: steps left to right and stops at the
      first step that throws. */
  function Run(slots: seq<Slot>, looks: seq<Option<Style>>, i: nat): Outcome
    requires i <= |looks| && i <= |slots|
    decreases |looks| - i
  {
    if i == |looks| then Outcome(slots, true)
    else
      var next := Step(slots, i, looks[i]);
      if next.completed then Run(next.slots, looks, i + 1) else next
  }

  /** The first `i` steps of `forEach`, as the loop has them done; after a
      step that throws nothing changes any more. */
  function Prefix(slots: seq<Slot>, looks: seq<Option<Style>>, i: nat): (r: Outcome)
    requires i <= |looks|
    ensures r.completed ==> |r.slots| == MaxLength(|slots|, i)
  {
    if i == 0 then Outcome(slots, true)
    else
      var done := Prefix(slots, looks, i - 1);
      if done.completed then Step(done.slots, i - 1, looks[i - 1]) else done
  }

  /** `Run` from the start is the first `i` steps followed by `Run` from `i`. */
  lemma {:induction false} RunFromPrefix(slots: seq<Slot>, looks: seq<Option<Style>>, i: nat)
    requires i <= |looks|
    ensures Prefix(slots, looks, i).completed ==>
              Run(slots, looks, 0) == Run(Prefix(slots, looks, i).slots, looks, i)
    ensures !Prefix(slots, looks, i).completed ==> Run(slots, looks, 0) == Prefix(slots, looks, i)
  {
    if i > 0 {
      RunFromPrefix(slots, looks, i - 1);
    }
  }

  /** The whole body of `eachFrame` on the slot values; a null or empty result
      list hides everything and stops there. */
  function Frame(slots: seq<Slot>, results: Option<seq<Detection>>): Outcome
  {
    Run(Hidden(slots), Looks(Detections(results)), 0)
  }

  // Each `Run` lemma below assumes the positions before `i` all had a style,
  // which is how `Run` reaches `i`.

  /** The loop runs to its end exactly when no style is missing. */
  lemma {:induction false} RunCompleted(slots: seq<Slot>, looks: seq<Option<Style>>, i: nat)
    requires i <= |looks| && i <= |slots| && i <= Missing(looks)
    ensures Run(slots, looks, i).completed <==> Missing(looks) == |looks|
    decreases |looks| - i
  {
    if i < |looks| && looks[i].Some? {
      RunCompleted(Step(slots, i, looks[i]).slots, looks, i + 1);
    }
  }

  /** The pool grows to the number of slots shown, never shrinks. */
  lemma {:induction false} RunLength(slots: seq<Slot>, looks: seq<Option<Style>>, i: nat)
    requires i <= |looks| && i <= |slots| && i <= Missing(looks)
    ensures |Run(slots, looks, i).slots| == MaxLength(|slots|, Reach(looks))
    decreases |looks| - i
  {
    if i < |looks| && looks[i].Some? {
      RunLength(Step(slots, i, looks[i]).slots, looks, i + 1);
    }
  }

  /** Slots before `i`, and slots past the last one shown, are not touched. */
  lemma {:induction false} RunUntouched(slots: seq<Slot>, looks: seq<Option<Style>>, i: nat)
    requires i <= |looks| && i <= |slots| && i <= Missing(looks)
    ensures forall j :: 0 <= j < i && j < |Run(slots, looks, i).slots| ==>
              Run(slots, looks, i).slots[j] == slots[j]
    ensures forall j :: Reach(looks) <= j < |slots| && j < |Run(slots, looks, i).slots| ==>
              Run(slots, looks, i).slots[j] == slots[j]
    decreases |looks| - i
  {
    if i < |looks| && looks[i].Some? {
      RunUntouched(Step(slots, i, looks[i]).slots, looks, i + 1);
    }
  }

  /** Every slot from `i` up to the last one shown ends visible. */
  lemma {:induction false} RunVisible(slots: seq<Slot>, looks: seq<Option<Style>>, i: nat)
    requires i <= |looks| && i <= |slots| && i <= Missing(looks)
    ensures forall j :: i <= j < Reach(looks) && j < |Run(slots, looks, i).slots| ==>
              Run(slots, looks, i).slots[j].visible
    decreases |looks| - i
  {
    if i < |looks| && looks[i].Some? {
      RunVisible(Step(slots, i, looks[i]).slots, looks, i + 1);
      RunUntouched(Step(slots, i, looks[i]).slots, looks, i + 1);
    }
  }

  /** Every slot from `i` on that had a style wears it. */
  lemma {:induction false} RunStyled(slots: seq<Slot>, looks: seq<Option<Style>>, i: nat)
    requires i <= |looks| && i <= |slots| && i <= Missing(looks)
    ensures forall j :: i <= j < Missing(looks) && j < |Run(slots, looks, i).slots| ==>
              looks[j] == Some(Run(slots, looks, i).slots[j].style)
    decreases |looks| - i
  {
    if i < |looks| && looks[i].Some? {
      RunStyled(Step(slots, i, looks[i]).slots, looks, i + 1);
      RunUntouched(Step(slots, i, looks[i]).slots, looks, i + 1);
    }
  }

  /** The slot whose style is missing keeps the style it had, or a new Text's. */
  lemma {:induction false} RunHaltSlot(slots: seq<Slot>, looks: seq<Option<Style>>, i: nat)
    requires i <= |looks| && i <= |slots| && i <= Missing(looks)
    ensures Missing(looks) < |looks| && Missing(looks) < |Run(slots, looks, i).slots| ==>
              Run(slots, looks, i).slots[Missing(looks)].style ==
                (if Missing(looks) < |slots| then slots[Missing(looks)].style else NewStyle)
    decreases |looks| - i
  {
    if i < |looks| && looks[i].Some? {
      RunHaltSlot(Step(slots, i, looks[i]).slots, looks, i + 1);
    }
  }

  /** A frame completes exactly when every detection has a score map. */
  lemma FrameCompleted(slots: seq<Slot>, results: Option<seq<Detection>>)
    ensures Frame(slots, results).completed <==> Halt(Detections(results)) == |Detections(results)|
  {
    RunCompleted(Hidden(slots), Looks(Detections(results)), 0);
  }

  /** After a frame the pool holds max(old length, slots shown) glyphs. */
  lemma FrameLength(slots: seq<Slot>, results: Option<seq<Detection>>)
    ensures |Frame(slots, results).slots| == MaxLength(|slots|, Shown(Detections(results)))
  {
    RunLength(Hidden(slots), Looks(Detections(results)), 0);
  }

  /** After a frame exactly the first `Shown` slots are visible: all of them
      for a frame that completes, none for a null or empty result list. */
  lemma FrameVisible(slots: seq<Slot>, results: Option<seq<Detection>>)
    ensures forall j :: 0 <= j < |Frame(slots, results).slots| ==>
              (Frame(slots, results).slots[j].visible <==> j < Shown(Detections(results)))
  {
    var looks := Looks(Detections(results));
    RunLength(Hidden(slots), looks, 0);
    RunUntouched(Hidden(slots), looks, 0);
    RunVisible(Hidden(slots), looks, 0);
  }

  /** The slot of every scored detection wears that detection's style. */
  lemma FrameStyled(slots: seq<Slot>, results: Option<seq<Detection>>)
    ensures forall j :: 0 <= j < Halt(Detections(results)) ==>
              j < |Frame(slots, results).slots| &&
              Restyle(Detections(results)[j]) == Some(Frame(slots, results).slots[j].style)
  {
    var looks := Looks(Detections(results));
    LooksEach(Detections(results));
    RunLength(Hidden(slots), looks, 0);
    RunStyled(Hidden(slots), looks, 0);
  }

  /** Every other existing slot keeps its text, size, origin, position and
      tilt; a slot created for a detection that threw has a new Text's. */
  lemma FrameKeeps(slots: seq<Slot>, results: Option<seq<Detection>>)
    ensures forall j :: Halt(Detections(results)) <= j < |slots| ==>
              j < |Frame(slots, results).slots| && Frame(slots, results).slots[j].style == slots[j].style
    ensures forall j :: |slots| <= j < |Frame(slots, results).slots| && Halt(Detections(results)) <= j ==>
              Frame(slots, results).slots[j].style == NewStyle
  {
    var looks, hidden := Looks(Detections(results)), Hidden(slots);
    var out := Run(hidden, looks, 0).slots;
    assert out == Frame(slots, results).slots;
    RunLength(hidden, looks, 0);
    RunUntouched(hidden, looks, 0);
    RunHaltSlot(hidden, looks, 0);
    forall j | Missing(looks) <= j < |slots|
      ensures j < |out| && out[j].style == slots[j].style
    {
      if j == Missing(looks) && j < |looks| {
        assert out[j].style == hidden[j].style;
      } else {
        assert out[j] == hidden[j];
      }
    }
  }

  /** A pencil.js Text drawable, reduced to the fields `eachFrame` writes. */
  class Glyph {
    var visible: bool
    var text: Option<string>
    var fontSize: real
    var originY: real
    var position: Point
    var tilt: Point

    /** `new Text(undefined, "", emojisOptions)`. */
    constructor ()
      ensures State() == Slot(true, NewStyle)
    {
      visible := true;
      text := Some("");
      fontSize := 0.0;
      originY := 0.0;
      position := Point(0.0, 0.0);
      tilt := Point(0.0, 0.0);
    }

    /** What the glyph shows. */
    function State(): Slot
      reads this
    {
      Slot(visible, Style(text, fontSize, originY, position, tilt))
    }

    /** `emoji.show()`. */
    method Show()
      modifies this
      ensures State() == Slot(true, old(State()).style)
    {
      visible := true;
    }

    /** `emoji.hide()`. */
    method Hide()
      modifies this
      ensures State() == Slot(false, old(State()).style)
    {
      visible := false;
    }

    /** The five writes after `getBest`: text, position, font size, origin
        and rotation, in that order. */
    method Dress(face: Option<string>, nose: Point, size: real, mouth: Point)
      modifies this
      ensures State() == Slot(old(visible), Style(face, size, -size / 2.0, nose,
                                                  Point(nose.x - mouth.x, nose.y - mouth.y)))
    {
      text := face;
      position := nose;
      fontSize := size;
      originY := -fontSize / 2.0;
      tilt := Point(nose.x - mouth.x, nose.y - mouth.y);
    }
  }

  /** The state `run` keeps for `eachFrame`: the `emojis` array and the glyphs
      added to the overlay scene, in the order of the `overlay.add` calls. */
  class EmojiPool {
    var emojis: seq<Glyph>
    var overlay: seq<Glyph>
    /** What the slots show, slot by slot. */
    ghost var slots: seq<Slot>

    /** Every slot is registered with the overlay once, in slot order, no
        glyph occupies two slots, and `slots` is what the glyphs show. */
    ghost predicate Valid()
      reads this, emojis
    {
      && overlay == emojis
      && (forall i, j :: 0 <= i < j < |emojis| ==> emojis[i] != emojis[j])
      && |slots| == |emojis|
      && (forall j :: 0 <= j < |emojis| ==> slots[j] == emojis[j].State())
    }

    /** `const emojis = []` next to a fresh, empty overlay scene. */
    constructor ()
      ensures Valid() && emojis == [] && overlay == [] && slots == []
    {
      emojis := [];
      overlay := [];
      slots := [];
    }

    /** `emojis.forEach(emoji => emoji.hide())`. */
    method HideAll()
      requires Valid()
      modifies this, emojis
      ensures Valid() && emojis == old(emojis)
      ensures slots == Hidden(old(slots))
    {
      var k := 0;
      while k < |emojis|
        invariant 0 <= k <= |emojis| && emojis == old(emojis) && slots == old(slots) && overlay == old(overlay)
        invariant forall j :: 0 <= j < k ==> emojis[j].State() == Slot(false, slots[j].style)
        invariant forall j :: k <= j < |emojis| ==> emojis[j].State() == slots[j]
      {
        emojis[k].Hide();
        k := k + 1;
      }
      slots := Hidden(slots);
    }

    /** The glyph of slot `index`: the existing one, or a new Text that is
        stored in the slot and added to the overlay there and then. */
    method SlotAt(index: nat) returns (emoji: Glyph)
      requires Valid() && index <= |emojis|
      modifies this
      ensures Valid()
      ensures index < old(|emojis|) ==> emojis == old(emojis) && slots == old(slots) && emoji == emojis[index]
      ensures index == old(|emojis|) ==>
                fresh(emoji) && emojis == old(emojis) + [emoji] && slots == old(slots) + [Slot(true, NewStyle)]
    {
      if index < |emojis| {
        emoji := emojis[index];
      } else {
        emoji := new Glyph();
        emojis := emojis + [emoji];
        overlay := overlay + [emoji];
        slots := slots + [emoji.State()];
      }
    }

    /** The body of `results.forEach` for detection `result` at `index`:
        take the slot, show it, and restyle it from the detection; false when
        `getBest` throws, after the slot is shown and before any field is
        written. */
    method Present(index: nat, result: Detection) returns (ok: bool)
      requires Valid() && index <= |emojis|
      modifies this, if index < |emojis| then {emojis[index]} else {}
      ensures Valid()
      ensures |emojis| == MaxLength(old(|emojis|), index + 1)
      ensures forall j :: 0 <= j < old(|emojis|) ==> emojis[j] == old(emojis[j])
      ensures Outcome(slots, ok) == Step(old(slots), index, Restyle(result))
      ensures index == old(|emojis|) ==> fresh(emojis[index])
    {
      var emoji := SlotAt(index);
      assert forall j :: 0 <= j < |emojis| && j != index ==> emojis[j] != emoji;
      emoji.Show();

      // `getBest` throws on an empty score map, before any field is written
      var expression := GetBest(result.scores);
      if expression.Some? {
        emoji.Dress(FaceFor(expression.value), result.nose, Max(result.box.width, result.box.height), result.mouth);
      }
      slots := slots[index := emoji.State()];
      ok := expression.Some?;
    }

    /** `results.forEach(...)`: the result is false when `getBest` threw and
        ended the loop early. */
    method PresentAll(detections: seq<Detection>) returns (completed: bool)
      requires Valid()
      modifies this, emojis
      ensures Valid() && old(|emojis|) <= |emojis|
      ensures forall j :: 0 <= j < old(|emojis|) ==> emojis[j] == old(emojis[j])
      ensures Outcome(slots, completed) == Run(old(slots), Looks(detections), 0)
      ensures forall j :: old(|emojis|) <= j < |emojis| ==> fresh(emojis[j])
    {
      ghost var looks := Looks(detections);
      completed := true;
      var i := 0;
      while i < |detections|
        invariant 0 <= i <= |detections|
        invariant Valid() && |emojis| == MaxLength(old(|emojis|), i)
        invariant forall j :: 0 <= j < old(|emojis|) ==> emojis[j] == old(emojis[j])
        invariant Prefix(old(slots), looks, i) == Outcome(slots, true)
        invariant forall j :: old(|emojis|) <= j < |emojis| ==> fresh(emojis[j])
      {
        assert i < |emojis| ==> emojis[i] == old(emojis)[i];
        ghost var before := emojis;
        ghost var step := Step(slots, i, looks[i]);
        assert Prefix(old(slots), looks, i + 1) == step;
        var ok := Present(i, detections[i]);
        LooksAt(detections, i);
        assert step == Outcome(slots, ok);
        forall j | old(|emojis|) <= j < |emojis|
          ensures fresh(emojis[j])
        {
          if j < |before| {
            assert emojis[j] == before[j];
          }
        }
        if !ok {
          RunFromPrefix(old(slots), looks, i + 1);
          completed := false;
          break;
        }
        i := i + 1;
      }
      if completed {
        RunFromPrefix(old(slots), looks, i);
      }
    }

    /** One `eachFrame` after the detector has produced `results` (`None` for
        a null list). The result is false when the returned promise rejects
        because `getBest` threw. No glyph is dropped or replaced. */
    method EachFrame(results: Option<seq<Detection>>) returns (completed: bool)
      requires Valid()
      modifies this, emojis
      ensures Valid() && old(|emojis|) <= |emojis|
      ensures forall j :: 0 <= j < old(|emojis|) ==> emojis[j] == old(emojis[j])
      ensures Outcome(slots, completed) == Frame(old(slots), results)
      ensures forall j :: old(|emojis|) <= j < |emojis| ==> fresh(emojis[j])
    {
      HideAll();
      if results.Some? && |results.value| > 0 {
        completed := PresentAll(results.value);
      } else {
        completed := true;
      }
    }
  }

  /** Two faces in one frame and none in the next: both glyphs end hidden,
      the same two glyphs stay in the pool and none is added. */
  method TwoFacesThenNone(a: Detection, b: Detection)
    requires a.scores != [] && b.scores != []
  {
    var both := [a, b];
    assert both[1..] == [b] && both[1..][1..] == [];
    assert Halt(both) == 2 && Shown(both) == 2;

    var pool := new EmojiPool();
    var done := pool.EachFrame(Some(both));
    FrameCompleted([], Some(both));
    FrameLength([], Some(both));
    FrameVisible([], Some(both));
    assert done && |pool.emojis| == 2;
    var first, second := pool.emojis[0], pool.emojis[1];
    assert pool.slots[0] == first.State() && pool.slots[1] == second.State();
    assert first.visible && second.visible;

    ghost var before := pool.slots;
    done := pool.EachFrame(None);
    FrameCompleted(before, None);
    FrameLength(before, None);
    FrameVisible(before, None);
    assert done && pool.emojis == [first, second];
    assert pool.slots[0] == first.State() && pool.slots[1] == second.State();
    assert !first.visible && !second.visible;
  }
}
