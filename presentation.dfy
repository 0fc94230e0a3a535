/** The score presentation rules of the student's "my ideas" page: clamping,
    a label per score band, the high-similarity flag, a recommendation and
    the suggested next actions. Scores are whole numbers here. */
module Presentation {
  import IdeaModel

  /** `clamp`: the score forced into [0, 100]. */
  function Clamp(v: int): (r: int)
    ensures 0 <= r <= 100
    ensures 0 <= v <= 100 ==> r == v
    ensures v < 0 ==> r == 0
    ensures v > 100 ==> r == 100
  {
    if v < 0 then 0 else if v > 100 then 100 else v
  }

  /** `labelFromScore` on the unclamped score. */
  function LabelFromScore(v: int): (band: string)
  {
    if v >= 85 then "Excellent"
    else if v >= 70 then "Good"
    else if v >= 50 then "Moderate"
    else if v >= 30 then "Low"
    else "Very Low"
  }

  /** The position of a label on the scale, worst first. */
  function LabelRank(band: string): nat
  {
    if band == "Excellent" then 4
    else if band == "Good" then 3
    else if band == "Moderate" then 2
    else if band == "Low" then 1
    else 0
  }

  /** A higher score never gets a worse label, and every label is one of the
      five bands. */
  lemma LabelMonotone(v: int, w: int)
    requires v <= w
    ensures LabelRank(LabelFromScore(v)) <= LabelRank(LabelFromScore(w))
    ensures LabelFromScore(v) in ["Excellent", "Good", "Moderate", "Low", "Very Low"]
  {
  }

  /** `isHighSimilarity`: the clamped similarity is at least 60, which is the
      same as the raw score being at least 60. */
  function IsHighSimilarity(sim: int): (r: bool)
    ensures r <==> sim >= 60
  {
    Clamp(sim) >= 60
  }

  datatype Tone = Danger | Good | Warn

  datatype Recommendation = Recommendation(text: string, tone: Tone)

  /** `recFromScores`: high similarity always asks for revision; moving on to
      the next milestone needs both high feasibility and low similarity. */
  function RecFromScores(feas: int, sim: int): (r: Recommendation)
    ensures IsHighSimilarity(sim) ==> r == Recommendation("Revise for originality", Danger)
    ensures r.text == "Proceed to next milestone" <==> feas >= 75 && sim <= 35
    ensures r.tone == Good <==> r.text == "Proceed to next milestone"
    ensures r.tone == Danger <==> sim >= 60
  {
    var f := Clamp(feas);
    var s := Clamp(sim);
    if s >= 60 then Recommendation("Revise for originality", Danger)
    else if f >= 75 && s <= 35 then Recommendation("Proceed to next milestone", Good)
    else if f >= 55 then Recommendation("Proceed with improvements", Warn)
    else Recommendation("Needs revision before review", Warn)
  }

  const AttachReference := "Attach a reference document (PDF/Word) to support the problem statement."
  const AddReferences := "Add 3\U{201A}\U{C4}\U{EC}5 key references and a short literature gap summary."
  const RewriteOverlap := "Rewrite overlapping sections and add novel contribution points."
  const RefineScope := "Refine scope: reduce complexity, clarify inputs/outputs, and define constraints."
  const DefineMilestones := "Define milestones: literature review, methodology, prototype, evaluation, report."

  /** `pickNextActions`: the actions are pushed in a fixed order and the
      first four kept. */
  method PickNextActions(submissionType: IdeaModel.SubmissionType, similarityScore: int, feasibilityScore: int)
    returns (actions: seq<string>)
    ensures |actions| <= 4
    ensures |actions| > 0 && (actions[0] == AttachReference <==> submissionType == IdeaModel.Text)
    ensures AddReferences in actions
    ensures RewriteOverlap in actions <==> Clamp(similarityScore) >= 40
    ensures RefineScope in actions <==> Clamp(feasibilityScore) < 60
    ensures DefineMilestones in actions <==>
              !(submissionType == IdeaModel.Text && Clamp(similarityScore) >= 40 && Clamp(feasibilityScore) < 60)
  {
    var sim := Clamp(similarityScore);
    var feas := Clamp(feasibilityScore);
    var all: seq<string> := [];
    if submissionType == IdeaModel.Text {
      all := all + [AttachReference];
    }
    all := all + [AddReferences];
    if sim >= 40 {
      all := all + [RewriteOverlap];
    }
    if feas < 60 {
      all := all + [RefineScope];
    }
    all := all + [DefineMilestones];
    actions := if |all| <= 4 then all else all[..4];
  }
}
