/**
 * The profile-picture similarity classifier of utils/pfp_check.py.
 *
 * The structural-similarity score itself is computed by an image library;
 * here it is an input `sim`. What remains is the tier decision: a chain of
 * strict comparisons, first match wins, and the evidence list that goes
 * with each tier.
 */
module PfpCheck {

  /** What check_pfp returns beside its boolean: reference paths for the two
      strong tiers, the candidate image itself for a likely match, or a reason. */
  datatype Evidence<I> = Paths(paths: seq<string>) | Images(images: seq<I>) | NoMatch(reason: string)

  /** The similarity buckets, ordered by descending score. */
  datatype Tier = Exact | NearDuplicate | Likely | Miss

  const ExactCutoff: real := 0.925
  const TwinCutoff: real := 0.9
  /** The likely-match cutoff that check_pfp hard-codes. */
  const LikelyCutoff: real := 0.5
  const MissCutoff: real := 0.4
  const NoMatchReason: string := "No match found"

  function ReferencePath(folderPath: string, filename: string): string
  {
    folderPath + "/" + filename
  }

  /** Appends `x` unless it is already present, as the source guards each append. */
  function AppendNew<T(==)>(list: seq<T>, x: T): (r: seq<T>)
    ensures x in r
    ensures x in list ==> r == list
    ensures x !in list ==> r == list + [x]
  {
    if x !in list then list + [x] else list
  }

  /** The tier a score falls in when the likely-match cutoff is `threshold`. */
  function TierOf(sim: real, threshold: real): (t: Tier)
    ensures t == Exact <==> sim > ExactCutoff
    ensures t == NearDuplicate <==> TwinCutoff < sim <= ExactCutoff
    ensures t == Likely <==> threshold < sim <= TwinCutoff
    ensures t == Miss <==> sim <= TwinCutoff && sim <= threshold
  {
    if sim > ExactCutoff then Exact
    else if sim > TwinCutoff then NearDuplicate
    else if sim > threshold then Likely
    else Miss
  }

  /**
   * The classifier with the likely-match cutoff as a parameter, as the
   * deprecated stream driver calls it (0.5 for one collection, 0.45 for the
   * other). Every list the source appends to starts empty on each call.
   */
  function CheckPfpAt<I>(sim: real, threshold: real, pfp: I, folderPath: string, filename: string): (r: (bool, Evidence<I>))
    ensures r.0 <==> TierOf(sim, threshold) != Miss
    ensures TierOf(sim, threshold) in {Exact, NearDuplicate} ==> r.1 == Paths([ReferencePath(folderPath, filename)])
    ensures TierOf(sim, threshold) == Likely ==> r.1 == Images([pfp])
    ensures TierOf(sim, threshold) == Miss ==> r.1 == NoMatch(NoMatchReason)
  {
    var path := ReferencePath(folderPath, filename);
    var matchedIds: seq<string> := [];
    var missingIds: seq<string> := [];
    var twinsies: seq<string> := [];
    var likelyMatches: seq<string> := [];
    var likelyPfps: seq<I> := [];
    assert [] + [path] == [path] && likelyPfps + [pfp] == [pfp];
    if sim > ExactCutoff then
      (true, Paths(AppendNew(matchedIds, path)))
    else if sim > TwinCutoff then
      (true, Paths(AppendNew(twinsies, path)))
    else if sim > threshold then
      (true, Images(if path !in likelyMatches then likelyPfps + [pfp] else likelyPfps))
    else if sim < MissCutoff && path !in missingIds then
      (false, NoMatch(NoMatchReason))
    else
      (false, NoMatch(NoMatchReason))
  }

  /**
   * check_pfp as utils/pfp_check.py defines it: four arguments, the
   * likely-match cutoff fixed at 0.5. The boolean is true exactly when the
   * score exceeds 0.5, and a match carries exactly one piece of evidence.
   */
  function CheckPfp<I>(sim: real, pfp: I, folderPath: string, filename: string): (r: (bool, Evidence<I>))
    ensures r.0 <==> sim > 0.5
    ensures sim > 0.925 ==> r.1 == Paths([folderPath + "/" + filename])
    ensures 0.9 < sim <= 0.925 ==> r.1 == Paths([folderPath + "/" + filename])
    ensures 0.5 < sim <= 0.9 ==> r.1 == Images([pfp])
    ensures sim <= 0.5 ==> r.1 == NoMatch("No match found")
  {
    CheckPfpAt(sim, LikelyCutoff, pfp, folderPath, filename)
  }

  /** The `< 0.4` branch and the fall-through give the same answer: every
      score at or below the cutoff is a plain miss. */
  lemma MissBranchesAgree<I>(sim: real, threshold: real, pfp: I, folderPath: string, filename: string)
    requires sim <= TwinCutoff && sim <= threshold
    ensures CheckPfpAt(sim, threshold, pfp, folderPath, filename) == (false, NoMatch(NoMatchReason))
  {
  }
}
