/**
 * The tracked-user table and its upsert, shared by update_pfp_tracked_table
 * (utils/stream_tools.py) and update_engagement_table
 * (depreciated/stream_tools.py). The two differ only in how many counter
 * columns the table has: six (Favorites, Retweets, Replies, Impressions,
 * Rank, Global_Reach) or four (the first four).
 *
 * A table is the sequence of rows the database read returns, in row order.
 * Counters and descriptive cells may be NULL, hence the Options.
 */
module TrackedTable {
  import opened Wrappers

  /** One row: `index` is the username, the key the upsert looks rows up by. */
  datatype TrackedRow = TrackedRow(
    index: string,
    name: string,
    counters: seq<Option<int>>,
    pfpUrl: Option<string>,
    description: Option<string>,
    bioLink: Option<string>)

  /** The arguments of one upsert call: the user and the freshly observed values. */
  datatype Observation = Observation(
    name: string,
    username: string,
    counters: seq<int>,
    pfpUrl: string,
    description: string,
    bioLink: string)

  /** Every row has one cell per counter column of the table's schema. */
  predicate WellFormed(table: seq<TrackedRow>, width: nat)
  {
    forall i :: 0 <= i < |table| ==> |table[i].counters| == width
  }

  /** `now` is at least `before`: a counter that was set stays set and never decreases. */
  predicate Dominates(now: Option<int>, before: Option<int>)
  {
    before.Some? ==> now.Some? && now.value >= before.value
  }

  /** The position of the first row whose index is `username` (pandas' idxmax of the match mask). */
  function FindUser(table: seq<TrackedRow>, username: string): (r: Option<nat>)
    ensures r.Some? ==> r.value < |table| && table[r.value].index == username
    ensures r.Some? ==> forall j :: 0 <= j < r.value ==> table[j].index != username
    ensures r.None? <==> forall j :: 0 <= j < |table| ==> table[j].index != username
  {
    if |table| == 0 then None
    else if table[0].index == username then Some(0)
    else
      match FindUser(table[1..], username)
      case None => None
      case Some(i) => Some(i + 1)
  }

  function Somes(xs: seq<int>): (r: seq<Option<int>>)
    ensures |r| == |xs|
    ensures forall k :: 0 <= k < |xs| ==> r[k] == Some(xs[k])
  {
    seq(|xs|, k requires 0 <= k < |xs| => Some(xs[k]))
  }

  /** The row appended for a user the table does not hold yet. */
  function NewRow(obs: Observation): (r: TrackedRow)
    ensures r.index == obs.username && r.name == obs.name
    ensures |r.counters| == |obs.counters|
    ensures forall k :: 0 <= k < |obs.counters| ==> r.counters[k] == Some(obs.counters[k])
    ensures r.pfpUrl == Some(obs.pfpUrl) && r.description == Some(obs.description) && r.bioLink == Some(obs.bioLink)
  {
    TrackedRow(obs.username, obs.name, Somes(obs.counters),
               Some(obs.pfpUrl), Some(obs.description), Some(obs.bioLink))
  }

  /** Whether a counter cell receives an update: it is NULL or the new value is larger. */
  predicate CounterNeedsUpdate(stored: Option<int>, observed: int)
  {
    stored.None? || observed > stored.value
  }

  /** A counter after the merge: NULL takes the observation, otherwise the larger of the two. */
  function MergeCounter(stored: Option<int>, observed: int): (r: Option<int>)
    ensures r.Some? && r.value >= observed
    ensures stored.None? ==> r.value == observed
    ensures stored.Some? ==> r.value == Max(stored.value, observed)
    ensures Dominates(r, stored)
  {
    if CounterNeedsUpdate(stored, observed) then
      Some(if stored.None? then observed else Max(observed, stored.value))
    else stored
  }

  /** Whether a descriptive cell receives an update: it is NULL or the new text differs. */
  predicate TextNeedsUpdate(stored: Option<string>, observed: string)
  {
    stored.None? || observed != stored.value
  }

  /** A descriptive cell after the merge: always the observed text, never max'd. */
  function MergeText(stored: Option<string>, observed: string): (r: Option<string>)
    ensures r == Some(observed)
  {
    if TextNeedsUpdate(stored, observed) then Some(observed) else stored
  }

  /** The existing user's row after the merge. `index` and `Name` are never written. */
  function MergeRow(row: TrackedRow, obs: Observation): (r: TrackedRow)
    requires |row.counters| == |obs.counters|
    ensures r.index == row.index && r.name == row.name
    ensures |r.counters| == |row.counters|
    ensures forall k :: 0 <= k < |row.counters| ==>
              && r.counters[k].Some?
              && r.counters[k].value >= obs.counters[k]
              && Dominates(r.counters[k], row.counters[k])
              && (row.counters[k].Some? ==> r.counters[k].value == Max(row.counters[k].value, obs.counters[k]))
              && (row.counters[k].None? ==> r.counters[k].value == obs.counters[k])
    ensures r.pfpUrl == Some(obs.pfpUrl) && r.description == Some(obs.description) && r.bioLink == Some(obs.bioLink)
  {
    TrackedRow(
      row.index, row.name,
      seq(|row.counters|, k requires 0 <= k < |row.counters| => MergeCounter(row.counters[k], obs.counters[k])),
      MergeText(row.pfpUrl, obs.pfpUrl),
      MergeText(row.description, obs.description),
      MergeText(row.bioLink, obs.bioLink))
  }

  /**
   * The table the upsert returns, and whether it writes the table back.
   * An unknown user gets one appended row and a write (an empty table
   * becomes exactly that row); a known user has the first matching row
   * merged in the returned table and no write is issued.
   */
  function Upserted(table: seq<TrackedRow>, obs: Observation): (r: (seq<TrackedRow>, bool))
    requires WellFormed(table, |obs.counters|)
    ensures WellFormed(r.0, |obs.counters|)
    ensures r.1 <==> forall j :: 0 <= j < |table| ==> table[j].index != obs.username
    ensures r.1 ==> r.0 == table + [NewRow(obs)]
    ensures table == [] ==> r.0 == [NewRow(obs)]
    ensures !r.1 ==> |r.0| == |table|
  {
    match FindUser(table, obs.username)
    case None => (table + [NewRow(obs)], true)
    case Some(i) => (table[i := MergeRow(table[i], obs)], false)
  }

  /**
   * Counters never decrease: every stored counter of every row is dominated
   * by the same cell afterwards, and the user's row ends up at least as
   * large as each observed value. Only the first row of the user changes,
   * and in it only counters and descriptive cells.
   */
  lemma {:induction false} UpsertKeepsOthersAndRaises(table: seq<TrackedRow>, obs: Observation)
    requires WellFormed(table, |obs.counters|)
    ensures var (t, _) := Upserted(table, obs);
      && |t| >= |table|
      && (forall j, k :: 0 <= j < |table| && 0 <= k < |obs.counters| ==> Dominates(t[j].counters[k], table[j].counters[k]))
      && (forall j :: 0 <= j < |table| && t[j] != table[j] ==>
            FindUser(table, obs.username) == Some(j) && t[j].index == table[j].index && t[j].name == table[j].name)
  {
    var (t, _) := Upserted(table, obs);
    match FindUser(table, obs.username)
    case None =>
      assert t == table + [NewRow(obs)];
      forall j, k | 0 <= j < |table| && 0 <= k < |obs.counters|
        ensures Dominates(t[j].counters[k], table[j].counters[k])
      {
        assert t[j] == table[j];
      }
    case Some(i) =>
      assert t == table[i := MergeRow(table[i], obs)];
  }

  /** After the upsert the user is present, carrying the observed descriptive
      values and counters at least as large as observed. */
  lemma UpsertHoldsUser(table: seq<TrackedRow>, obs: Observation)
    requires WellFormed(table, |obs.counters|)
    ensures var t := Upserted(table, obs).0;
      && FindUser(t, obs.username).Some?
      && var row := t[FindUser(t, obs.username).value];
      && row.pfpUrl == Some(obs.pfpUrl) && row.description == Some(obs.description) && row.bioLink == Some(obs.bioLink)
      && (forall k :: 0 <= k < |obs.counters| ==> row.counters[k].Some? && row.counters[k].value >= obs.counters[k])
  {
    UpsertFindsSame(table, obs);
  }

  /** In the upserted table the user is found where the merge or the append put it. */
  lemma {:induction false} UpsertFindsSame(table: seq<TrackedRow>, obs: Observation)
    requires WellFormed(table, |obs.counters|)
    ensures var t := Upserted(table, obs).0;
      && FindUser(t, obs.username) == Some(if FindUser(table, obs.username).Some? then FindUser(table, obs.username).value else |table|)
      && (FindUser(table, obs.username).None? ==> t[|table|] == NewRow(obs))
      && (FindUser(table, obs.username).Some? ==>
            var i := FindUser(table, obs.username).value; t[i] == MergeRow(table[i], obs))
  {
    var t := Upserted(table, obs).0;
    match FindUser(table, obs.username)
    case None =>
      FindUserAt(t, obs.username, |table|);
    case Some(i) =>
      FindUserAt(t, obs.username, i);
  }

  /** FindUser answers `i` whenever row `i` is the first with that index. */
  lemma {:induction false} FindUserAt(table: seq<TrackedRow>, username: string, i: nat)
    requires i < |table| && table[i].index == username
    requires forall j :: 0 <= j < i ==> table[j].index != username
    ensures FindUser(table, username) == Some(i)
  {
    if i > 0 {
      FindUserAt(table[1..], username, i - 1);
    }
  }

  /** Merging the same observation twice is merging it once. */
  lemma MergeRowIdempotent(row: TrackedRow, obs: Observation)
    requires |row.counters| == |obs.counters|
    ensures MergeRow(MergeRow(row, obs), obs) == MergeRow(row, obs)
  {
    var once := MergeRow(row, obs);
    var twice := MergeRow(once, obs);
    assert twice.counters == once.counters;
  }

  /** A fresh row already holds the observation it was built from. */
  lemma MergeNewRowIsNoop(obs: Observation)
    ensures MergeRow(NewRow(obs), obs) == NewRow(obs)
  {
    assert MergeRow(NewRow(obs), obs).counters == NewRow(obs).counters;
  }

  /**
   * Idempotence: replaying the same call on the returned table gives the
   * same table back and issues no write, because every counter update is a
   * max and every text update is guarded by inequality.
   */
  lemma {:induction false} UpsertIdempotent(table: seq<TrackedRow>, obs: Observation)
    requires WellFormed(table, |obs.counters|)
    ensures Upserted(Upserted(table, obs).0, obs) == (Upserted(table, obs).0, false)
  {
    var t := Upserted(table, obs).0;
    UpsertFindsSame(table, obs);
    match FindUser(table, obs.username)
    case None =>
      MergeNewRowIsNoop(obs);
      assert t[|table| := MergeRow(t[|table|], obs)] == t;
    case Some(i) =>
      MergeRowIdempotent(table[i], obs);
      assert t[i := MergeRow(t[i], obs)] == t;
  }

  /**
   * Write-only-on-change, for a known user: when the stored row already
   * dominates every observed counter and holds the observed texts, the
   * merge returns the table unchanged.
   */
  lemma {:induction false} UpsertNoChangeWhenDominated(table: seq<TrackedRow>, obs: Observation, i: nat)
    requires WellFormed(table, |obs.counters|)
    requires FindUser(table, obs.username) == Some(i)
    requires forall k :: 0 <= k < |obs.counters| ==> table[i].counters[k].Some? && table[i].counters[k].value >= obs.counters[k]
    requires table[i].pfpUrl == Some(obs.pfpUrl) && table[i].description == Some(obs.description)
    requires table[i].bioLink == Some(obs.bioLink)
    ensures Upserted(table, obs) == (table, false)
  {
    var m := MergeRow(table[i], obs);
    assert m.counters == table[i].counters;
    assert m == table[i];
    assert table[i := m] == table;
  }

  /**
   * The per-column loop of the upsert: the update dictionary holds the
   * columns whose stored value is NULL or smaller than the observation,
   * each with its merged value.
   */
  method CounterUpdates(stored: seq<Option<int>>, observed: seq<int>) returns (updates: map<nat, int>)
    requires |stored| == |observed|
    ensures forall j :: j in updates ==> j < |observed|
    ensures forall j :: 0 <= j < |observed| ==> (j in updates <==> CounterNeedsUpdate(stored[j], observed[j]))
    ensures forall j :: j in updates ==> Some(updates[j]) == MergeCounter(stored[j], observed[j])
  {
    updates := map[];
    var k := 0;
    while k < |observed|
      invariant 0 <= k <= |observed|
      invariant forall j :: j in updates ==> j < k
      invariant forall j :: 0 <= j < k ==> (j in updates <==> CounterNeedsUpdate(stored[j], observed[j]))
      invariant forall j :: j in updates ==> Some(updates[j]) == MergeCounter(stored[j], observed[j])
    {
      var current := stored[k];
      if current.None? || observed[k] > current.value {
        updates := updates[k := if current.None? then observed[k] else Max(observed[k], current.value)];
      }
      k := k + 1;
    }
  }

  /**
   * The upsert as update_pfp_tracked_table and update_engagement_table run
   * it: an empty table becomes one row; otherwise find the first row of the
   * user, collect the cells that need an update into `counterUpdates` and the
   * three text updates, and assign them into that row only when there is at
   * least one; an unknown user is appended. `wrote` records the to_sql call.
   */
  method Upsert(table: seq<TrackedRow>, obs: Observation) returns (result: seq<TrackedRow>, wrote: bool)
    requires WellFormed(table, |obs.counters|)
    ensures (result, wrote) == Upserted(table, obs)
  {
    if |table| == 0 {
      return [NewRow(obs)], true;
    }
    var i := 0;
    while i < |table| && table[i].index != obs.username
      invariant 0 <= i <= |table|
      invariant forall j :: 0 <= j < i ==> table[j].index != obs.username
    {
      i := i + 1;
    }
    if i == |table| {
      return table + [NewRow(obs)], true;
    }
    FindUserAt(table, obs.username, i);
    var row := table[i];
    var counterUpdates := CounterUpdates(row.counters, obs.counters);
    var pfpUpdate := if TextNeedsUpdate(row.pfpUrl, obs.pfpUrl) then Some(obs.pfpUrl) else None;
    var descUpdate := if TextNeedsUpdate(row.description, obs.description) then Some(obs.description) else None;
    var bioUpdate := if TextNeedsUpdate(row.bioLink, obs.bioLink) then Some(obs.bioLink) else None;
    result := table;
    if |counterUpdates| > 0 || pfpUpdate.Some? || descUpdate.Some? || bioUpdate.Some? {
      var counters := seq(|row.counters|, j requires 0 <= j < |row.counters| =>
                        if j in counterUpdates then Some(counterUpdates[j]) else row.counters[j]);
      var updated := TrackedRow(
        row.index, row.name, counters,
        if pfpUpdate.Some? then pfpUpdate else row.pfpUrl,
        if descUpdate.Some? then descUpdate else row.description,
        if bioUpdate.Some? then bioUpdate else row.bioLink);
      assert updated.counters == MergeRow(row, obs).counters;
      result := table[i := updated];
    } else {
      assert MergeRow(row, obs).counters == row.counters;
      assert table[i := MergeRow(row, obs)] == table;
    }
    wrote := false;
  }
}
