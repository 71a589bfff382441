/**
 * The membership reduction inside get_stream, in engagement_stream.py and
 * in depreciated/engagement_stream.py. For each stream line the driver
 * takes the last user of the tweet's includes, fetches that user's profile
 * picture, compares it with a random sample of at most five reference
 * images of each collection (y00ts, then degods), and files the user as a
 * matched user or a non-holder.
 *
 * The two drivers differ only in the likely-match cutoff they classify
 * with: the current one calls check_pfp, whose cutoff is 0.5 for both
 * collections; the deprecated one passes 0.5 for y00ts and 0.45 for
 * degods. The random sample, the directory listings and the similarity
 * scores are inputs of a line.
 */
module Membership {
  import opened Wrappers
  import PfpCheck

  const Y00tFolder: string := "outputs/y00ts_imgs"
  const DegodFolder: string := "outputs/degods_imgs"
  const MaxSample: nat := 5

  function EndsWith(s: string, suffix: string): bool
  {
    |suffix| <= |s| && s[|s| - |suffix|..] == suffix
  }

  /** Listing entries kept as reference files: names ending in "png" or "jpg". */
  predicate IsReferenceName(f: string)
  {
    EndsWith(f, "png") || EndsWith(f, "jpg")
  }

  /** Sampled names actually opened and compared: ending in ".png" or ".jpg". */
  predicate IsComparedName(f: string)
  {
    EndsWith(f, ".png") || EndsWith(f, ".jpg")
  }

  /** The reference files of a directory listing, in listing order. */
  function ReferenceFiles(listing: seq<string>): (r: seq<string>)
    ensures |r| <= |listing|
    ensures forall f :: f in r <==> f in listing && IsReferenceName(f)
  {
    if |listing| == 0 then []
    else (if IsReferenceName(listing[0]) then [listing[0]] else []) + ReferenceFiles(listing[1..])
  }

  /** random.sample(pool, min(5, len(pool))): that many distinct positions of the pool. */
  predicate IsSample(sample: seq<string>, pool: seq<string>)
  {
    && |sample| == Min(MaxSample, |pool|)
    && (forall i :: 0 <= i < |sample| ==> sample[i] in pool)
    && (forall i, j :: 0 <= i < j < |sample| ==> sample[i] != sample[j])
  }

  /** The position of the last sampled name that is compared, if any. */
  function LastCompared(sample: seq<string>): (r: Option<nat>)
    ensures r.Some? ==> r.value < |sample| && IsComparedName(sample[r.value])
    ensures r.Some? ==> forall j :: r.value < j < |sample| ==> !IsComparedName(sample[j])
    ensures r.None? <==> forall j :: 0 <= j < |sample| ==> !IsComparedName(sample[j])
  {
    if |sample| == 0 then None
    else if IsComparedName(sample[|sample| - 1]) then Some(|sample| - 1)
    else LastCompared(sample[..|sample| - 1])
  }

  /**
   * A collection's flag after its sample: the verdict on the last compared
   * file, or the previous line's flag when no file was compared.
   */
  function SampleVerdict(pfpLink: string, folder: string, sample: seq<string>, scores: seq<real>,
                         threshold: real, prev: Option<bool>): (r: Option<bool>)
    requires |scores| == |sample|
    ensures LastCompared(sample).None? ==> r == prev
    ensures LastCompared(sample).Some? ==>
      r == Some(PfpCheck.TierOf(scores[LastCompared(sample).value], threshold) != PfpCheck.Miss)
  {
    match LastCompared(sample)
    case None => prev
    case Some(i) => Some(PfpCheck.CheckPfpAt(scores[i], threshold, pfpLink, folder, sample[i]).0)
  }

  /**
   * The loop over a collection's sample: every compared file overwrites the
   * flag, so the last compared file decides, not "any match".
   */
  method ClassifySample(pfpLink: string, folder: string, sample: seq<string>, scores: seq<real>,
                        threshold: real, prev: Option<bool>) returns (flag: Option<bool>)
    requires |scores| == |sample|
    ensures flag == SampleVerdict(pfpLink, folder, sample, scores, threshold, prev)
  {
    flag := prev;
    var k := 0;
    while k < |sample|
      invariant 0 <= k <= |sample|
      invariant flag == SampleVerdict(pfpLink, folder, sample[..k], scores[..k], threshold, prev)
    {
      assert sample[..k + 1][..k] == sample[..k];
      var file := sample[k];
      if EndsWith(file, ".png") || EndsWith(file, ".jpg") {
        var verdict := PfpCheck.CheckPfpAt(scores[k], threshold, pfpLink, folder, file);
        flag := Some(verdict.0);
      }
      k := k + 1;
    }
    assert sample[..k] == sample && scores[..k] == scores;
  }

  /** Where a classified user is filed. */
  datatype Decision = Y00tHolder | DegodHolder | NonHolder

  /** A local read before any line ever assigned it raises UnboundLocalError. */
  datatype StreamError = UnboundLocal(variable: string)

  /**
   * The if/elif/else on the two flags. y00ts take precedence: the degods
   * flag is read only when the y00ts flag is false.
   */
  function Decide(y00t: Option<bool>, degod: Option<bool>): (r: Result<Decision, StreamError>)
    ensures r == Ok(Y00tHolder) <==> y00t == Some(true)
    ensures r == Ok(DegodHolder) <==> y00t == Some(false) && degod == Some(true)
    ensures r == Ok(NonHolder) <==> y00t == Some(false) && degod == Some(false)
    ensures r.Err? <==> y00t.None? || (y00t == Some(false) && degod.None?)
  {
    match y00t
    case None => Err(UnboundLocal("wearing_y00t_pfp"))
    case Some(y) =>
      if y then Ok(Y00tHolder)
      else
        match degod
        case None => Err(UnboundLocal("wearing_degod_pfp"))
        case Some(d) => if d && !y then Ok(DegodHolder) else Ok(NonHolder)
  }

  /**
   * The inputs of one non-empty stream line: the usernames of the tweet's
   * included users in order, the profile-picture link (None when fetching
   * it raised), the two directory listings, the random samples drawn from
   * them, and the similarity score of the picture against each sampled file.
   */
  datatype StreamLine = StreamLine(
    users: seq<string>,
    pfpLink: Option<string>,
    y00tListing: seq<string>,
    degodListing: seq<string>,
    y00tSample: seq<string>,
    degodSample: seq<string>,
    y00tScores: seq<real>,
    degodScores: seq<real>)
  {
    predicate Valid()
    {
      && IsSample(y00tSample, ReferenceFiles(y00tListing))
      && IsSample(degodSample, ReferenceFiles(degodListing))
      && |y00tScores| == |y00tSample|
      && |degodScores| == |degodSample|
    }
  }

  datatype LineOutcome = Skipped | Classified(user: string, decision: Decision) | Crashed(error: StreamError)

  /**
   * The message printed before the user is filed names the sampled files:
   * `y00t_file` and `degod_file` for a y00ts match or a non-holder,
   * `degod_file` alone for a degods match. These are the loop variables of
   * the two sample loops, unbound until some line drew a non-empty sample;
   * the result is the first unbound one the message reads.
   */
  function MessageError(d: Decision, y00tFile: Option<string>, degodFile: Option<string>): (r: Option<StreamError>)
    ensures r == Some(UnboundLocal("y00t_file")) <==> d != DegodHolder && y00tFile.None?
    ensures r == Some(UnboundLocal("degod_file")) <==> (d == DegodHolder || y00tFile.Some?) && degodFile.None?
    ensures r.None? <==> (d == DegodHolder || y00tFile.Some?) && degodFile.Some?
  {
    if d != DegodHolder && y00tFile.None? then Some(UnboundLocal("y00t_file"))
    else if degodFile.None? then Some(UnboundLocal("degod_file"))
    else None
  }

  /** The value a `for` loop variable holds after the loop: the last element, or its old value when the loop ran zero times. */
  function AfterLoop(sample: seq<string>, prev: Option<string>): Option<string>
  {
    if |sample| > 0 then Some(sample[|sample| - 1]) else prev
  }

  /**
   * The state get_stream carries from line to line: the module-level lists
   * and the function locals (`username` and the two flags) that keep their
   * value from the previous line, the loop variables of the two sample
   * loops among them.
   */
  class StreamDriver {
    const y00tThreshold: real
    const degodThreshold: real
    var matchedUsers: seq<string>
    var nonHolders: seq<string>
    var pfpLinkList: seq<string>
    var username: Option<string>
    var y00tFlag: Option<bool>
    var degodFlag: Option<bool>
    var y00tFile: Option<string>
    var degodFile: Option<string>

    /** engagement_stream.py: check_pfp's own cutoff for both collections. */
    constructor Current()
      ensures y00tThreshold == PfpCheck.LikelyCutoff && degodThreshold == PfpCheck.LikelyCutoff
      ensures matchedUsers == [] && nonHolders == [] && pfpLinkList == []
      ensures username.None? && y00tFlag.None? && degodFlag.None?
      ensures y00tFile.None? && degodFile.None?
    {
      y00tThreshold, degodThreshold := PfpCheck.LikelyCutoff, PfpCheck.LikelyCutoff;
      matchedUsers, nonHolders, pfpLinkList := [], [], [];
      username, y00tFlag, degodFlag := None, None, None;
      y00tFile, degodFile := None, None;
    }

    /** depreciated/engagement_stream.py: 0.5 for y00ts, 0.45 for degods. */
    constructor Deprecated()
      ensures y00tThreshold == 0.5 && degodThreshold == 0.45
      ensures matchedUsers == [] && nonHolders == [] && pfpLinkList == []
      ensures username.None? && y00tFlag.None? && degodFlag.None?
      ensures y00tFile.None? && degodFile.None?
    {
      y00tThreshold, degodThreshold := 0.5, 0.45;
      matchedUsers, nonHolders, pfpLinkList := [], [], [];
      username, y00tFlag, degodFlag := None, None, None;
      y00tFile, degodFile := None, None;
    }

    /**
     * One non-empty stream line. Only the last included user is classified
     * (the loop over includes only records names). With no username ever
     * bound, the picture fetch raises, and so does the handler's message,
     * which reads the name again: the stream ends. A failed picture fetch
     * skips the line. Otherwise both flags are recomputed from the samples;
     * unless a flag or a file name the message reads is unbound, the user
     * is filed in exactly one of `matchedUsers` or `nonHolders`, and only a
     * y00ts match records the link.
     */
    method ProcessLine(line: StreamLine) returns (outcome: LineOutcome)
      requires line.Valid()
      modifies this
      ensures username == (if |line.users| > 0 then Some(line.users[|line.users| - 1]) else old(username))
      ensures username.None? ==> outcome == Crashed(UnboundLocal("username"))
      ensures username.Some? && line.pfpLink.None? ==> outcome == Skipped
      ensures username.None? || line.pfpLink.None? ==>
        && y00tFlag == old(y00tFlag) && degodFlag == old(degodFlag)
        && y00tFile == old(y00tFile) && degodFile == old(degodFile)
        && matchedUsers == old(matchedUsers) && nonHolders == old(nonHolders) && pfpLinkList == old(pfpLinkList)
      ensures username.Some? && line.pfpLink.Some? ==>
        var user, link := username.value, line.pfpLink.value;
        && y00tFlag == SampleVerdict(link, Y00tFolder, line.y00tSample, line.y00tScores, y00tThreshold, old(y00tFlag))
        && degodFlag == SampleVerdict(link, DegodFolder, line.degodSample, line.degodScores, degodThreshold, old(degodFlag))
        && y00tFile == AfterLoop(line.y00tSample, old(y00tFile))
        && degodFile == AfterLoop(line.degodSample, old(degodFile))
        && match Decide(y00tFlag, degodFlag)
           case Err(e) =>
             outcome == Crashed(e)
             && matchedUsers == old(matchedUsers) && nonHolders == old(nonHolders) && pfpLinkList == old(pfpLinkList)
           case Ok(d) =>
             match MessageError(d, y00tFile, degodFile)
             case Some(e) =>
               outcome == Crashed(e)
               && matchedUsers == old(matchedUsers) && nonHolders == old(nonHolders) && pfpLinkList == old(pfpLinkList)
             case None =>
               && outcome == Classified(user, d)
               && (d == NonHolder ==> nonHolders == old(nonHolders) + [user] && matchedUsers == old(matchedUsers))
               && (d != NonHolder ==> matchedUsers == old(matchedUsers) + [user] && nonHolders == old(nonHolders))
               && pfpLinkList == (if d == Y00tHolder then old(pfpLinkList) + [link] else old(pfpLinkList))
    {
      var current := username;
      var i := 0;
      while i < |line.users|
        invariant 0 <= i <= |line.users|
        invariant current == (if i > 0 then Some(line.users[i - 1]) else old(username))
      {
        current := Some(line.users[i]);
        i := i + 1;
      }
      username := current;
      if username.None? {
        return Crashed(UnboundLocal("username"));
      }
      if line.pfpLink.None? {
        return Skipped;
      }
      var user, link := username.value, line.pfpLink.value;
      CompareSamples(line, link);
      var decision := Decide(y00tFlag, degodFlag);
      if decision.Err? {
        return Crashed(decision.error);
      }
      var unbound := MessageError(decision.value, y00tFile, degodFile);
      if unbound.Some? {
        return Crashed(unbound.value);
      }
      FileUser(user, link, decision.value);
      outcome := Classified(user, decision.value);
    }

    /**
     * The two comparison loops: each flag becomes its sample's verdict, and
     * each loop variable is left at the sample's last name.
     */
    method CompareSamples(line: StreamLine, link: string)
      requires line.Valid()
      modifies this`y00tFlag, this`degodFlag, this`y00tFile, this`degodFile
      ensures y00tFlag == SampleVerdict(link, Y00tFolder, line.y00tSample, line.y00tScores, y00tThreshold, old(y00tFlag))
      ensures degodFlag == SampleVerdict(link, DegodFolder, line.degodSample, line.degodScores, degodThreshold, old(degodFlag))
      ensures y00tFile == AfterLoop(line.y00tSample, old(y00tFile))
      ensures degodFile == AfterLoop(line.degodSample, old(degodFile))
    {
      y00tFlag := ClassifySample(link, Y00tFolder, line.y00tSample, line.y00tScores, y00tThreshold, y00tFlag);
      if |line.y00tSample| > 0 {
        y00tFile := Some(line.y00tSample[|line.y00tSample| - 1]);
      }
      degodFlag := ClassifySample(link, DegodFolder, line.degodSample, line.degodScores, degodThreshold, degodFlag);
      if |line.degodSample| > 0 {
        degodFile := Some(line.degodSample[|line.degodSample| - 1]);
      }
    }

    /** Appends the user to the list the decision names; a y00ts match also records the link. */
    method FileUser(user: string, link: string, d: Decision)
      modifies this`matchedUsers, this`nonHolders, this`pfpLinkList
      ensures d == NonHolder ==> nonHolders == old(nonHolders) + [user] && matchedUsers == old(matchedUsers)
      ensures d != NonHolder ==> matchedUsers == old(matchedUsers) + [user] && nonHolders == old(nonHolders)
      ensures pfpLinkList == if d == Y00tHolder then old(pfpLinkList) + [link] else old(pfpLinkList)
    {
      match d
      case Y00tHolder =>
        matchedUsers := matchedUsers + [user];
        pfpLinkList := pfpLinkList + [link];
      case DegodHolder =>
        matchedUsers := matchedUsers + [user];
      case NonHolder =>
        nonHolders := nonHolders + [user];
    }
  }

  /** Every name the driver compares is also a reference file: ".png" ends in "png". */
  lemma ComparedNamesAreReferenceNames(f: string)
    requires IsComparedName(f)
    ensures IsReferenceName(f)
  {
    if EndsWith(f, ".png") {
      assert f[|f| - 3..] == f[|f| - 4..][1..];
    } else {
      assert f[|f| - 3..] == f[|f| - 4..][1..];
    }
  }

  /** The sample has min(5, n) elements, all reference files of the listing. */
  lemma SampleDrawsReferenceFiles(sample: seq<string>, listing: seq<string>)
    requires IsSample(sample, ReferenceFiles(listing))
    ensures |sample| <= MaxSample
    ensures forall i :: 0 <= i < |sample| ==> sample[i] in listing && IsReferenceName(sample[i])
  {
  }

  /**
   * With the deprecated thresholds the degods collection accepts scores the
   * y00ts collection rejects: anything in (0.45, 0.5].
   */
  lemma DegodCutoffIsLower(score: real, pfpLink: string, file: string)
    requires 0.45 < score <= 0.5
    ensures PfpCheck.CheckPfpAt(score, 0.45, pfpLink, DegodFolder, file).0
    ensures !PfpCheck.CheckPfpAt(score, 0.5, pfpLink, Y00tFolder, file).0
  {
  }
}
