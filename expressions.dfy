/** The expression selector `getBest` of src/index.js and the fixed table
    from expression names to emoji characters. */
module Expressions {
  import opened Wrappers

  /** One own key of the detector's expression object with its confidence.
      A score map is the sequence of these in `Object.keys` order; the keys
      of a JavaScript object are distinct, so each entry carries the value
      that `scores[key]` would look up. */
  datatype Score = Score(name: string, confidence: real)

  /** The position that a left-to-right scan settles on when it moves only
      to a strictly greater confidence. */
  function BestIndex(scores: seq<Score>): (k: nat)
    requires |scores| > 0
    ensures k < |scores|
    decreases |scores|
  {
    if |scores| == 1 then 0
    else
      var k := BestIndex(scores[..|scores| - 1]);
      if scores[|scores| - 1].confidence > scores[k].confidence then |scores| - 1 else k
  }

  /** The scan settles on the first position of a maximal confidence: no
      confidence is greater, and every earlier one is smaller. */
  lemma {:induction false} BestIndexIsFirstMaximum(scores: seq<Score>)
    requires |scores| > 0
    ensures forall j :: 0 <= j < |scores| ==> scores[j].confidence <= scores[BestIndex(scores)].confidence
    ensures forall j :: 0 <= j < BestIndex(scores) ==> scores[j].confidence < scores[BestIndex(scores)].confidence
    decreases |scores|
  {
    if |scores| > 1 {
      var front := scores[..|scores| - 1];
      BestIndexIsFirstMaximum(front);
      assert forall j :: 0 <= j < |front| ==> front[j] == scores[j];
    }
  }

  /** `getBest`: the name at the position `BestIndex` picks. `None` stands for
      the TypeError that `reduce` without an initial value throws on an empty
      key list. */
  function GetBest(scores: seq<Score>): (r: Option<string>)
    ensures r.None? <==> scores == []
  {
    if scores == [] then None else Some(scores[BestIndex(scores)].name)
  }

  /** `getBest` of a non-empty score map names an expression of maximal
      confidence, and ties go to the earliest key. */
  lemma GetBestIsFirstMaximum(scores: seq<Score>)
    requires scores != []
    ensures exists k ::
              && 0 <= k < |scores| && scores[k].name == GetBest(scores).value
              && (forall j :: 0 <= j < |scores| ==> scores[j].confidence <= scores[k].confidence)
              && (forall j :: 0 <= j < k ==> scores[j].confidence < scores[k].confidence)
  {
    BestIndexIsFirstMaximum(scores);
    var k := BestIndex(scores);
    assert scores[k].name == GetBest(scores).value;
  }

  /** The reduce callback exactly as written: `!acc` holds for the empty
      string as well, so an empty key never survives as the accumulator. */
  function KeepAsWritten(acc: Score, val: Score): Score
  {
    if acc.name == "" || val.confidence > acc.confidence then val else acc
  }

  /** `Object.keys(scores).reduce(callback)`: the accumulator starts at the
      first key and the callback is applied to each later key in turn. */
  function ReduceAsWritten(scores: seq<Score>): (r: Score)
    requires |scores| > 0
    ensures r in scores
    decreases |scores|
  {
    if |scores| == 1 then scores[0]
    else KeepAsWritten(ReduceAsWritten(scores[..|scores| - 1]), scores[|scores| - 1])
  }

  /** `getBest` as written, including the empty-key behaviour of `!acc`. */
  function GetBestAsWritten(scores: seq<Score>): (r: Option<string>)
    ensures r.None? <==> scores == []
    ensures r.Some? ==> exists s :: s in scores && s.name == r.value
  {
    if scores == [] then None else Some(ReduceAsWritten(scores).name)
  }

  /** As long as no key is the empty string, the code as written computes the
      first maximal entry. */
  lemma {:induction false} ReduceAsWrittenIsBest(scores: seq<Score>)
    requires |scores| > 0
    requires forall j :: 0 <= j < |scores| ==> scores[j].name != ""
    ensures ReduceAsWritten(scores) == scores[BestIndex(scores)]
    decreases |scores|
  {
    if |scores| > 1 {
      ReduceAsWrittenIsBest(scores[..|scores| - 1]);
    }
  }

  /** Without an empty key, `getBest` as written and the corrected selector
      agree on every score map, so the frame model may use either. */
  lemma AsWrittenAgreesWithoutEmptyKey(scores: seq<Score>)
    requires forall j :: 0 <= j < |scores| ==> scores[j].name != ""
    ensures GetBestAsWritten(scores) == GetBest(scores)
  {
    if scores != [] {
      ReduceAsWrittenIsBest(scores);
    }
  }

  /** With an empty first key the code as written returns a key whose score
      is not the maximum. */
  lemma EmptyKeyLosesMaximum()
    ensures GetBestAsWritten([Score("", 1.0), Score("happy", 0.5)]) == Some("happy")
    ensures GetBest([Score("", 1.0), Score("happy", 0.5)]) == Some("")
  {
  }

  /** The seven expression names the detector reports. */
  const ExpressionNames: set<string> :=
    {"angry", "disgusted", "fearful", "happy", "neutral", "sad", "surprised"}

  /** The `faces` table: one emoji code point per expression. */
  const Faces: map<string, string> := map[
    "angry" := "\U{1F620}",
    "disgusted" := "\U{1F922}",
    "fearful" := "\U{1F628}",
    "happy" := "\U{1F600}",
    "neutral" := "\U{1F611}",
    "sad" := "\U{1F62D}",
    "surprised" := "\U{1F632}"
  ]

  /** `faces[expression]`: `None` is the `undefined` of a name the table lacks. */
  function FaceFor(expression: string): Option<string>
  {
    if expression in Faces then Some(Faces[expression]) else None
  }

  /** The table covers exactly the detector's expressions, each with a single
      character, and no two expressions share a character. */
  lemma FacesTable()
    ensures Faces.Keys == ExpressionNames
    ensures forall e :: e in ExpressionNames ==> FaceFor(e).Some? && |FaceFor(e).value| == 1
    ensures forall e, f :: e in Faces && f in Faces && e != f ==> Faces[e] != Faces[f]
  {
  }

  /** A happy face scoring 0.9 against 0.05 for sad and neutral shows the
      grinning emoji. */
  lemma HappyScenario()
    ensures GetBest([Score("happy", 0.9), Score("sad", 0.05), Score("neutral", 0.05)]) == Some("happy")
    ensures FaceFor("happy") == Some("\U{1F600}")
  {
  }
}
