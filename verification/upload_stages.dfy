/** The scan-upload wizard: three stages shown one at a time, each
    advancing to the next (the last wrapping round to the first) when its
    component signals `next-stage`. */
module UploadStages {
  import opened Wrappers

  const UploadStagesList: seq<string> := ["upload-pick", "upload-preview", "upload-progress"]

  /** The stage the wizard opens on. */
  const InitialStage: string := UploadStagesList[0]

  /** `Array.prototype.indexOf`: the first position of `x`, or -1. */
  function IndexOf(xs: seq<string>, x: string): (r: int)
    ensures -1 <= r < |xs|
    ensures r == -1 <==> x !in xs
    ensures r >= 0 ==> xs[r] == x && forall k | 0 <= k < r :: xs[k] != x
  {
    if xs == [] then -1
    else if xs[0] == x then 0
    else
      var k := IndexOf(xs[1..], x);
      if k == -1 then -1 else k + 1
  }

  /** `progressStage`: the stage after the current one, cyclically; a stage
      that is not in the list (which the type excludes) would lead to the
      first. */
  function ProgressStage(stage: string): (r: string)
    ensures r in UploadStagesList
    ensures stage !in UploadStagesList ==> r == InitialStage
  {
    UploadStagesList[(IndexOf(UploadStagesList, stage) + 1) % |UploadStagesList|]
  }

  /** The tag `render` instantiates: the stage's own component, or
      `undefined` for a stage not in the list. */
  function StageTag(stage: string): (r: Option<string>)
    ensures r.Some? <==> stage in UploadStagesList
    ensures r.Some? ==> r.value == stage
  {
    var k := IndexOf(UploadStagesList, stage);
    if k == -1 then None else Some(UploadStagesList[k])
  }

  /** The stages follow each other in order: pick, preview, progress, and
      back to pick, so three signals bring every stage back to itself. */
  lemma StagesCycle(stage: string)
    requires stage in UploadStagesList
    ensures ProgressStage("upload-pick") == "upload-preview"
    ensures ProgressStage("upload-preview") == "upload-progress"
    ensures ProgressStage("upload-progress") == "upload-pick"
    ensures ProgressStage(ProgressStage(ProgressStage(stage))) == stage
  {
    assert IndexOf(UploadStagesList, "upload-pick") == 0;
    assert IndexOf(UploadStagesList, "upload-preview") == 1 by {
      assert UploadStagesList[0] != "upload-preview";
    }
    assert IndexOf(UploadStagesList, "upload-progress") == 2 by {
      assert UploadStagesList[0] != "upload-progress" && UploadStagesList[1] != "upload-progress";
    }
  }
}
