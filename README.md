# emojime in Dafny

A model of the per-frame core of the emojime webcam demo (`src/index.js`):
the expression selector `getBest`, the `faces` table from expression names to
emoji, and the callback `eachFrame`, which maintains a pool of pencil.js Text
glyphs, one per detected face.

Each frame, `eachFrame` does three things:

- It hides every glyph in the pool.
- For each detection, in order, it reuses or creates the glyph at that index. A new glyph goes into `emojis` and onto the overlay scene.
- It shows the glyph and restyles it from the detection.
  - The text is the face of the best-scoring expression.
  - The position is the nose point, and the font size is the larger side of the detection box.
  - The origin sits half a font size up, and the rotation follows the vector from mouth to nose.

The model has three modules:

- `Wrappers` holds the `Option` datatype.
- `Expressions` holds `getBest` and the `faces` table. They are pure, so they become functions and lemmas.
- `Presenter` holds the frame.
  - Its specification is on values: `Slot`, `Style`, `Step`, `Run` and `Frame`.
  - Its imperative side is two classes. `Glyph` is a Text drawable. `EmojiPool` holds the `emojis` array and the glyphs added to the overlay.
  - `EmojiPool.EachFrame` is proved against `Frame`. The `Frame*` lemmas prove what a frame does to the pool.

When a score map is empty, `reduce` without an initial value throws a TypeError. The model does not exclude this case. It is modelled as follows:

- `GetBest` returns `None`.
- The frame stops at that detection. The glyph for that detection is already created, registered and shown, but not restyled.
- `EachFrame` returns `false`.

The detector, the webcam and the resize step are outside the model. A frame's detection results are a parameter: `None` stands for a null result list. Each detection is already resized to its box, nose point (`getNose()[1]`), mouth point (`getMouth()[3]`) and expression scores.

`Presenter.TwoFacesThenNone` is a client scenario that uses only the contracts: two faces in one frame, then none in the next. It shows that the same two glyphs stay in the pool, visible after the first frame and hidden after the second, and that no glyph is added.

## Model

| member | source | states |
|---|---|---|
| Expressions.BestIndexIsFirstMaximum | src/index.js:56-62 | the position the left-to-right scan keeps has a confidence no other key exceeds, and every earlier key's confidence is strictly smaller (ties go to the first key) |
| Expressions.GetBest | src/index.js:56-62 | `getBest` yields a name exactly when the score map is non-empty; an empty map is the TypeError of `reduce` without an initial value |
| Expressions.GetBestIsFirstMaximum | src/index.js:56-62 | for a non-empty score map, `getBest` names a key of maximal confidence that no earlier key ties |
| Expressions.ReduceAsWritten | src/index.js:56-62 | the reduce as written, `!acc` test included, ends on one of the input entries |
| Expressions.GetBestAsWritten | src/index.js:56-62 | `getBest` as written yields a name present in the score map, and yields none exactly for an empty map |
| Expressions.ReduceAsWrittenIsBest | src/index.js:56-62 | when no key is the empty string, the reduce as written ends on the first maximal entry |
| Expressions.AsWrittenAgreesWithoutEmptyKey | src/index.js:56-62 | when no key is the empty string, `getBest` as written and the corrected selector agree on every score map |
| Expressions.EmptyKeyLosesMaximum | src/index.js:57 | on keys "" (1.0) and "happy" (0.5) the code as written returns "happy", not the maximal key "" |
| Expressions.FacesTable | src/index.js:91-99 | the `faces` table has exactly the seven expression names, maps each to a single character, and maps no two names to the same character |
| Expressions.HappyScenario | src/index.js:125-126 | happy 0.9 against sad and neutral at 0.05 selects "happy", whose face is U+1F600 |
| Presenter.Max | src/index.js:133 | `Math.max` is at least both arguments and equals one of them |
| Presenter.Restyle | src/index.js:125-138 | a detection determines a style exactly when its score map is non-empty |
| Presenter.RestyleFields | src/index.js:125-138 | the style has the face of `getBest`'s expression, a font size equal to the larger box side, an origin half a font size up, the nose as position, and a tilt that added to the mouth gives the nose |
| Presenter.Looks | src/index.js:113-139 | each detection of a frame asks for one style, in order |
| Presenter.LooksAt | src/index.js:113-139 | the style asked for at position j is detection j's own |
| Presenter.LooksEach | src/index.js:113-139 | every position asks for its own detection's style |
| Presenter.Missing | src/index.js:125 | the first position without a style; every earlier position has one |
| Presenter.Reach | src/index.js:113-120 | the number of slots shown: up to and including the first one without a style when there is one, otherwise all of them |
| Presenter.Halt | src/index.js:113-125 | `forEach` stops at the first detection with an empty score map; every earlier detection has scores |
| Presenter.Shown | src/index.js:113-120 | a frame shows the slots up to and including the first detection where `getBest` throws, when there is one, otherwise all its detections' slots |
| Presenter.Hidden | src/index.js:110 | hiding keeps the pool's length and every slot's style, and makes every slot invisible |
| Presenter.Prefix | src/index.js:113-139 | after i steps that all completed, the pool holds max(old length, i) slots |
| Presenter.RunFromPrefix | src/index.js:113-139 | running the whole loop is the first i steps followed by the rest; after a throw nothing changes |
| Presenter.RunCompleted | src/index.js:113-139 | the loop runs to its end exactly when no detection lacks scores |
| Presenter.RunLength | src/index.js:113-119 | the pool grows to the number of slots shown and never shrinks |
| Presenter.RunUntouched | src/index.js:113-139 | slots already passed, and slots beyond the last one shown, are unchanged |
| Presenter.RunVisible | src/index.js:120 | every slot from the current one up to the last one shown ends visible |
| Presenter.RunStyled | src/index.js:125-138 | every slot whose detection had scores wears that detection's style |
| Presenter.RunHaltSlot | src/index.js:114-125 | the slot where `getBest` throws keeps the style it had, or a new Text's |
| Presenter.FrameCompleted | src/index.js:108-141 | a frame completes exactly when every detection has a non-empty score map |
| Presenter.FrameLength | src/index.js:108-141 | after a frame the pool holds max(old length, slots shown) glyphs |
| Presenter.FrameVisible | src/index.js:108-141 | after a frame a slot is visible exactly when its index is below the number of slots shown; a null or empty result list hides all |
| Presenter.FrameStyled | src/index.js:108-141 | after a frame the slot of every detection before the throw exists and wears that detection's style |
| Presenter.FrameKeeps | src/index.js:108-141 | every other existing slot keeps its style, and a slot created for the detection that threw has a new Text's style |
| Presenter.Glyph.constructor | src/index.js:114 | a new Text is visible with empty text |
| Presenter.Glyph.Show | src/index.js:120 | `show()` makes the glyph visible and changes nothing else |
| Presenter.Glyph.Hide | src/index.js:110 | `hide()` makes the glyph invisible and changes nothing else |
| Presenter.Glyph.Dress | src/index.js:126-138 | the five writes set text, font size, origin (minus half the font size), position and tilt, and keep visibility |
| Presenter.EmojiPool.constructor | src/index.js:102 | the pool and the overlay start empty |
| Presenter.EmojiPool.HideAll | src/index.js:110 | every glyph is hidden, and the same glyphs stay in the pool with their styles |
| Presenter.EmojiPool.SlotAt | src/index.js:114-119 | an existing slot's glyph is returned unchanged; past the end, a fresh Text is appended to both `emojis` and the overlay |
| Presenter.EmojiPool.Present | src/index.js:114-138 | one `forEach` callback takes the slot, shows it and restyles it per `Step`, and reports a throw; no other slot changes |
| Presenter.EmojiPool.PresentAll | src/index.js:113-139 | the loop leaves the pool as `Run` says, keeps every existing glyph, and only appends fresh ones |
| Presenter.EmojiPool.EachFrame | src/index.js:108-141 | one frame leaves the pool as `Frame` says; the overlay equals the pool with no glyph twice, no glyph is dropped or replaced, and new glyphs are fresh |

## Left out

- Model loading (`loadModels`), the webcam (`startVideo`) and DOM setup are I/O. They are not part of this model.
- The detector calls `recognise` and `resizeResults` belong to face-api.js. Their output is given as `Detection` records, already resized.
- Presenter.Glyph.Dress: the rotation is kept as the nose-minus-mouth vector (`tilt`). The angle that pencil.js `Position.angle` computes from it is floating-point trigonometry.
- The render loop (`startLoop` and the draw event), the awaiting of each frame, and frames that overlap because `eachFrame` is async are not modelled. A frame is one atomic call.
- A rejected frame promise only returns `false`. Nothing in the code handles it.
- Presenter.Glyph.constructor: pencil.js defaults for a new Text are placeholders, except that its text is empty and it is visible. The shared `emojisOptions` object passed to every Text, including its `align`, is not modelled.
- `faces[expression]` on a name the table lacks gives `undefined` (`None`). The model does not cover names inherited from `Object.prototype`.
- JavaScript numbers are modelled as reals. NaN, infinities and rounding are not modelled.
- Score maps are sequences in `Object.keys` order with distinct keys, as a JavaScript object has.
- Presenter.Restyle: the frame picks the face with the corrected selector `GetBest` (through `BestIndex`), not with `getBest` as written. So `Frame` and `EmojiPool.EachFrame` can differ from `eachFrame` on a score map that has the empty string as a key. For example, with keys "" (1.0) and "happy" (0.5), the code shows U+1F600 and the model shows no face. By `Expressions.AsWrittenAgreesWithoutEmptyKey` the two agree whenever no key is the empty string, which is always the case for the detector's seven names.
- The code computes `nose - mouth`, the vector from the mouth point `getMouth()[3]` to the nose. The model follows the code.
- The code throws on an empty score map, and the model covers that case.

## Findings

| source | as written | input that shows it | evidently intended | confidence | as-written member | corrected member |
|---|---|---|---|---|---|---|
| src/index.js:57 | `!acc` is also true when the accumulated key is the empty string, so a later key replaces it whatever the scores are | keys "" with score 1.0 and "happy" with score 0.5: `getBest` returns "happy" (Expressions.EmptyKeyLosesMaximum) | the first key of maximal score, where `!acc` only guards a missing accumulator | low, because the detector never reports an empty name; not executed | Expressions.GetBestAsWritten | Expressions.GetBest |
