/**
 * The per-tweet metrics table and the per-user aggregated table, as
 * update_tweets_table and update_aggregated_metrics maintain them. Both
 * functions exist twice, in utils/stream_tools.py and in
 * depreciated/stream_tools.py, with the same logic.
 *
 * Both update a data frame the caller passed in, in place; a `Frame` is
 * that data frame. The SQL they issue is returned as a value: the SET
 * clause of the UPDATE, or whether the table was written back.
 */
module MetricsTables {
  import opened Wrappers

  /** The four counter columns of both tables. */
  datatype Metric = Favorites | Retweets | Replies | Impressions

  datatype Metrics = Metrics(favorites: int, retweets: int, replies: int, impressions: int)
  {
    function Get(m: Metric): int
    {
      match m
      case Favorites => favorites
      case Retweets => retweets
      case Replies => replies
      case Impressions => impressions
    }

    function Plus(other: Metrics): Metrics
    {
      Metrics(favorites + other.favorites, retweets + other.retweets,
              replies + other.replies, impressions + other.impressions)
    }

    /** The cells named in `updates` take their new value; the others keep theirs. */
    function Override(updates: map<Metric, int>): (r: Metrics)
      ensures forall m :: r.Get(m) == if m in updates then updates[m] else Get(m)
    {
      Metrics(
        if Favorites in updates then updates[Favorites] else favorites,
        if Retweets in updates then updates[Retweets] else retweets,
        if Replies in updates then updates[Replies] else replies,
        if Impressions in updates then updates[Impressions] else impressions)
    }

    predicate NonNegative()
    {
      favorites >= 0 && retweets >= 0 && replies >= 0 && impressions >= 0
    }
  }

  const Zero := Metrics(0, 0, 0, 0)

  /** A row of the metrics table: `index` is the author's username. */
  datatype TweetRow = TweetRow(index: string, author: string, metrics: Metrics, tweetId: string)

  /** A row of the aggregated users table, keyed by username. */
  datatype UserRow = UserRow(index: string, metrics: Metrics)

  /** The row lookups that index `.values[0]` raise IndexError when nothing matches. */
  datatype Error = NoSuchTweet | NoSuchUser

  /** A data frame owned by the caller and updated in place. */
  class Frame<R> {
    var rows: seq<R>

    constructor (rows: seq<R>)
      ensures this.rows == rows
    {
      this.rows := rows;
    }
  }

  // ---------------------------------------------------------------- tweets table

  /** The position of the first row carrying tweet `id`. */
  function FindTweet(rows: seq<TweetRow>, id: string): (r: Option<nat>)
    ensures r.Some? ==> r.value < |rows| && rows[r.value].tweetId == id
    ensures r.Some? ==> forall j :: 0 <= j < r.value ==> rows[j].tweetId != id
    ensures r.None? <==> forall j :: 0 <= j < |rows| ==> rows[j].tweetId != id
  {
    if |rows| == 0 then None
    else if rows[0].tweetId == id then Some(0)
    else
      match FindTweet(rows[1..], id)
      case None => None
      case Some(i) => Some(i + 1)
  }

  /** `.loc[Tweet_ID == id, [col]] = v`: every row of that tweet takes the update. */
  function ApplyTweetUpdates(row: TweetRow, id: string, updates: map<Metric, int>): TweetRow
  {
    if row.tweetId == id then row.(metrics := row.metrics.Override(updates)) else row
  }

  /**
   * The metrics of a tweet that the observation raises: exactly the fields
   * whose observed value is strictly greater than the stored one, each with
   * the observed value. Built one field at a time, as the source does.
   */
  method IncreasedMetrics(stored: Metrics, observed: Metrics) returns (updated: map<Metric, int>)
    ensures forall m :: m in updated <==> observed.Get(m) > stored.Get(m)
    ensures forall m :: m in updated ==> updated[m] == observed.Get(m)
  {
    updated := map[];
    if observed.favorites > stored.favorites {
      updated := updated[Favorites := observed.favorites];
    }
    if observed.retweets > stored.retweets {
      updated := updated[Retweets := observed.retweets];
    }
    if observed.replies > stored.replies {
      updated := updated[Replies := observed.replies];
    }
    if observed.impressions > stored.impressions {
      updated := updated[Impressions := observed.impressions];
    }
  }

  /**
   * update_tweets_table: compare the observation with the first row of the
   * tweet, write each strictly larger value into every row of that tweet,
   * and issue an UPDATE (returned as its SET clause) only when some field
   * rose. A tweet that is not in the frame raises.
   */
  method UpdateTweetsTable(frame: Frame<TweetRow>, id: string, observed: Metrics)
      returns (outcome: Result<Option<map<Metric, int>>, Error>)
    modifies frame
    ensures FindTweet(old(frame.rows), id).None? ==> outcome == Err(NoSuchTweet) && frame.rows == old(frame.rows)
    ensures FindTweet(old(frame.rows), id).Some? ==>
      var stored := old(frame.rows)[FindTweet(old(frame.rows), id).value].metrics;
      && outcome.Ok?
      && (outcome.value.Some? ==> |outcome.value.value| > 0)
      && var updated := if outcome.value.Some? then outcome.value.value else map[];
      && (forall m :: m in updated <==> observed.Get(m) > stored.Get(m))
      && (forall m :: m in updated ==> updated[m] == observed.Get(m))
      && |frame.rows| == |old(frame.rows)|
      && (forall j :: 0 <= j < |frame.rows| ==> frame.rows[j] == ApplyTweetUpdates(old(frame.rows)[j], id, updated))
    ensures FindTweet(old(frame.rows), id).Some? ==> frame.rows == TweetsAfter(old(frame.rows), id, observed)
  {
    var found := FindTweet(frame.rows, id);
    if found.None? {
      return Err(NoSuchTweet);
    }
    var stored := frame.rows[found.value].metrics;
    var updated := IncreasedMetrics(stored, observed);
    assert updated == RaisedMetrics(stored, observed);
    var rows := frame.rows;
    frame.rows := seq(|rows|, j requires 0 <= j < |rows| => ApplyTweetUpdates(rows[j], id, updated));
    if |updated| > 0 {
      outcome := Ok(Some(updated));
    } else {
      outcome := Ok(None);
    }
  }

  /** The metrics an observation raises, each with its observed value. */
  function RaisedMetrics(stored: Metrics, observed: Metrics): (r: map<Metric, int>)
    ensures forall m :: m in r <==> observed.Get(m) > stored.Get(m)
    ensures forall m :: m in r ==> r[m] == observed.Get(m)
  {
    map m | m in {Favorites, Retweets, Replies, Impressions} && observed.Get(m) > stored.Get(m) :: observed.Get(m)
  }

  /**
   * The values update_tweets_table actually compares against, as written.
   * Read without an index column, a row of the tweets table holds index,
   * Author, Favorites, Retweets, Replies, Impressions, Tweet_ID and Tags;
   * being longer than six it is cut to `row[1:]`, and `row[2..5]` then
   * reads Retweets, Replies, Impressions and Tweet_ID. `tweetIdNumber` is
   * `int()` of the tweet id text.
   */
  function PositionalBaseline(stored: Metrics, tweetIdNumber: int): Metrics
  {
    Metrics(stored.retweets, stored.replies, stored.impressions, tweetIdNumber)
  }

  /**
   * The update dictionary as written: each observed metric is tested
   * against its neighbouring column, and impressions against the tweet id.
   */
  function RaisedMetricsAsWritten(stored: Metrics, tweetIdNumber: int, observed: Metrics): (r: map<Metric, int>)
    ensures Favorites in r <==> observed.favorites > stored.retweets
    ensures Retweets in r <==> observed.retweets > stored.replies
    ensures Replies in r <==> observed.replies > stored.impressions
    ensures Impressions in r <==> observed.impressions > tweetIdNumber
    ensures forall m :: m in r ==> r[m] == observed.Get(m)
  {
    RaisedMetrics(PositionalBaseline(stored, tweetIdNumber), observed)
  }

  /**
   * The shifted comparison lowers a stored count: 10 stored likes and no
   * stored retweets, observed at 5 likes, yield an UPDATE setting Favorites
   * to 5, where the intended comparison raises nothing.
   */
  lemma ShiftedComparisonLowersFavorites()
    ensures var stored, observed := Metrics(10, 0, 0, 0), Metrics(5, 0, 0, 0);
      && RaisedMetricsAsWritten(stored, 1, observed) == map[Favorites := 5]
      && RaisedMetrics(stored, observed) == map[]
  {
    var stored, observed := Metrics(10, 0, 0, 0), Metrics(5, 0, 0, 0);
    var written := RaisedMetricsAsWritten(stored, 1, observed);
    assert written.Keys == {Favorites} by {
      forall m ensures m in written <==> m == Favorites {
        assert m in written <==> observed.Get(m) > PositionalBaseline(stored, 1).Get(m);
      }
    }
    var intended := RaisedMetrics(stored, observed);
    assert intended.Keys == {} by {
      forall m ensures m !in intended {
        assert !(observed.Get(m) > stored.Get(m));
      }
    }
  }

  /**
   * The effect of update_tweets_table on the rows: every row of the tweet
   * takes the metrics the first row's comparison raised; the rows of other
   * tweets, and a frame without the tweet, stay as they were.
   */
  function TweetsAfter(rows: seq<TweetRow>, id: string, observed: Metrics): (r: seq<TweetRow>)
    ensures |r| == |rows|
    ensures FindTweet(rows, id).None? ==> r == rows
    ensures forall j :: 0 <= j < |rows| && rows[j].tweetId != id ==> r[j] == rows[j]
    ensures forall j :: 0 <= j < |rows| ==> r[j].tweetId == rows[j].tweetId && r[j].index == rows[j].index
    ensures FindTweet(rows, id).Some? ==> forall j, m :: 0 <= j < |rows| && rows[j].tweetId == id ==>
      r[j].metrics.Get(m) ==
        (if observed.Get(m) > rows[FindTweet(rows, id).value].metrics.Get(m) then observed.Get(m) else rows[j].metrics.Get(m))
  {
    match FindTweet(rows, id)
    case None => rows
    case Some(i) =>
      var updated := RaisedMetrics(rows[i].metrics, observed);
      seq(|rows|, j requires 0 <= j < |rows| => ApplyTweetUpdates(rows[j], id, updated))
  }

  /**
   * Raise-only: the row the comparison reads ends with each metric equal to
   * the larger of stored and observed, and when the tweet id is unique in
   * the frame no cell of any row decreases.
   */
  lemma {:induction false} TweetsOnlyRise(rows: seq<TweetRow>, id: string, observed: Metrics)
    requires FindTweet(rows, id).Some?
    ensures var i := FindTweet(rows, id).value;
      forall m :: TweetsAfter(rows, id, observed)[i].metrics.Get(m) == Max(rows[i].metrics.Get(m), observed.Get(m))
    ensures (forall a, b :: 0 <= a < b < |rows| && rows[a].tweetId == id ==> rows[b].tweetId != id) ==>
      forall j, m :: 0 <= j < |rows| ==> TweetsAfter(rows, id, observed)[j].metrics.Get(m) >= rows[j].metrics.Get(m)
  {
    var i := FindTweet(rows, id).value;
    var after := TweetsAfter(rows, id, observed);
    if forall a, b :: 0 <= a < b < |rows| && rows[a].tweetId == id ==> rows[b].tweetId != id {
      forall j, m | 0 <= j < |rows|
        ensures after[j].metrics.Get(m) >= rows[j].metrics.Get(m)
      {
        if rows[j].tweetId == id {
          assert j == i;
        }
      }
    }
  }

  /**
   * Replaying the same observation raises nothing the second time: no
   * UPDATE is issued and the rows stay as the first call left them.
   */
  lemma {:induction false} TweetsReplayIsNoop(rows: seq<TweetRow>, id: string, observed: Metrics)
    requires FindTweet(rows, id).Some?
    ensures var after := TweetsAfter(rows, id, observed);
      && FindTweet(after, id) == FindTweet(rows, id)
      && RaisedMetrics(after[FindTweet(after, id).value].metrics, observed) == map[]
      && TweetsAfter(after, id, observed) == after
  {
    var i := FindTweet(rows, id).value;
    var after := TweetsAfter(rows, id, observed);
    FindTweetAt(after, id, i);
    TweetsOnlyRise(rows, id, observed);
    var none := RaisedMetrics(after[i].metrics, observed);
    assert none == map[] by {
      forall m ensures m !in none {
        assert !(observed.Get(m) > after[i].metrics.Get(m));
      }
    }
    var again := TweetsAfter(after, id, observed);
    forall j | 0 <= j < |after|
      ensures again[j] == after[j]
    {
      if after[j].tweetId == id {
        var a, b := again[j].metrics, after[j].metrics;
        assert a.Get(Favorites) == b.Get(Favorites) && a.Get(Retweets) == b.Get(Retweets);
        assert a.Get(Replies) == b.Get(Replies) && a.Get(Impressions) == b.Get(Impressions);
      }
    }
  }

  lemma {:induction false} FindTweetAt(rows: seq<TweetRow>, id: string, i: nat)
    requires i < |rows| && rows[i].tweetId == id
    requires forall j :: 0 <= j < i ==> rows[j].tweetId != id
    ensures FindTweet(rows, id) == Some(i)
  {
    if i > 0 {
      FindTweetAt(rows[1..], id, i - 1);
    }
  }

  // -------------------------------------------------------- aggregated table

  /** The first row of the users table for `author`. */
  function FindUserRow(rows: seq<UserRow>, author: string): (r: Option<nat>)
    ensures r.Some? ==> r.value < |rows| && rows[r.value].index == author
    ensures r.Some? ==> forall j :: 0 <= j < r.value ==> rows[j].index != author
    ensures r.None? <==> forall j :: 0 <= j < |rows| ==> rows[j].index != author
  {
    if |rows| == 0 then None
    else if rows[0].index == author then Some(0)
    else
      match FindUserRow(rows[1..], author)
      case None => None
      case Some(i) => Some(i + 1)
  }

  /** The sum of the metrics of the author's rows in the metrics table. */
  function SumFor(tweets: seq<TweetRow>, author: string): Metrics
  {
    if |tweets| == 0 then Zero
    else SumFor(tweets[..|tweets| - 1], author).Plus(Contribution(tweets[|tweets| - 1], author))
  }

  /** What one row of the metrics table adds to the author's totals. */
  function Contribution(row: TweetRow, author: string): Metrics
  {
    if row.index == author then row.metrics else Zero
  }

  /** Summing over two stretches of the metrics table adds the two sums. */
  lemma {:induction false} SumForAppend(a: seq<TweetRow>, b: seq<TweetRow>, author: string)
    ensures SumFor(a + b, author) == SumFor(a, author).Plus(SumFor(b, author))
  {
    if |b| == 0 {
      assert a + b == a;
    } else {
      var b' := b[..|b| - 1];
      var last := Contribution(b[|b| - 1], author);
      assert (a + b)[..|a + b| - 1] == a + b';
      assert (a + b)[|a + b| - 1] == b[|b| - 1];
      SumForAppend(a, b', author);
      assert SumFor(a + b, author) == SumFor(a + b', author).Plus(last);
      assert SumFor(b, author) == SumFor(b', author).Plus(last);
    }
  }

  /** Rows of other authors contribute nothing. */
  lemma {:induction false} SumForIgnoresOthers(tweets: seq<TweetRow>, author: string)
    requires forall j :: 0 <= j < |tweets| ==> tweets[j].index != author
    ensures SumFor(tweets, author) == Zero
  {
    if tweets != [] {
      SumForIgnoresOthers(tweets[..|tweets| - 1], author);
    }
  }

  /** With non-negative counts the sum is non-negative. */
  lemma {:induction false} SumForNonNegative(tweets: seq<TweetRow>, author: string)
    requires forall j :: 0 <= j < |tweets| ==> tweets[j].metrics.NonNegative()
    ensures SumFor(tweets, author).NonNegative()
  {
    if tweets != [] {
      SumForNonNegative(tweets[..|tweets| - 1], author);
    }
  }

  /**
   * The totals update_aggregated_metrics computes: stored plus the sum of
   * the author's rows, except that a zero impressions total falls back to
   * the stored impressions.
   */
  function AggregatedTotals(stored: Metrics, tweets: seq<TweetRow>, author: string): (r: Metrics)
    ensures r.favorites == stored.favorites + SumFor(tweets, author).favorites
    ensures r.retweets == stored.retweets + SumFor(tweets, author).retweets
    ensures r.replies == stored.replies + SumFor(tweets, author).replies
    ensures stored.impressions + SumFor(tweets, author).impressions != 0 ==>
              r.impressions == stored.impressions + SumFor(tweets, author).impressions
    ensures stored.impressions + SumFor(tweets, author).impressions == 0 ==> r.impressions == stored.impressions
  {
    var total := stored.Plus(SumFor(tweets, author));
    if total.impressions == 0 then total.(impressions := stored.impressions) else total
  }

  /** The `+=` loop over the author's rows, then the zero-impressions fallback. */
  method AggregateTotals(stored: Metrics, tweets: seq<TweetRow>, author: string) returns (totals: Metrics)
    ensures totals == AggregatedTotals(stored, tweets, author)
  {
    totals := stored;
    var i := 0;
    while i < |tweets|
      invariant 0 <= i <= |tweets|
      invariant totals == stored.Plus(SumFor(tweets[..i], author))
    {
      var row := tweets[i];
      assert tweets[..i + 1][..i] == tweets[..i] && tweets[..i + 1][i] == row;
      assert SumFor(tweets[..i + 1], author) == SumFor(tweets[..i], author).Plus(Contribution(row, author));
      if row.index == author {
        totals := Metrics(totals.favorites + row.metrics.favorites,
                          totals.retweets + row.metrics.retweets,
                          totals.replies + row.metrics.replies,
                          totals.impressions + row.metrics.impressions);
      }
      i := i + 1;
    }
    assert tweets[..i] == tweets;
    if totals.impressions == 0 {
      totals := totals.(impressions := stored.impressions);
    }
  }

  /**
   * The `+=` scheme is not idempotent: aggregating the same metrics table a
   * second time onto the result adds the author's sum again.
   */
  lemma AggregationDoubleCounts(stored: Metrics, tweets: seq<TweetRow>, author: string)
    ensures var once := AggregatedTotals(stored, tweets, author);
      AggregatedTotals(once, tweets, author).favorites == stored.favorites + 2 * SumFor(tweets, author).favorites
    ensures SumFor(tweets, author).favorites != 0 ==>
      AggregatedTotals(AggregatedTotals(stored, tweets, author), tweets, author) != AggregatedTotals(stored, tweets, author)
  {
  }

  /**
   * With non-negative counts the zero-impressions fallback never changes
   * anything: a zero total means the stored impressions were zero too.
   */
  lemma ZeroFallbackInert(stored: Metrics, tweets: seq<TweetRow>, author: string)
    requires stored.NonNegative()
    requires forall j :: 0 <= j < |tweets| ==> tweets[j].metrics.NonNegative()
    ensures AggregatedTotals(stored, tweets, author) == stored.Plus(SumFor(tweets, author))
  {
    SumForNonNegative(tweets, author);
  }

  /** `.loc[index == author, col] = total`: every row of the author takes the totals. */
  function ApplyTotals(row: UserRow, author: string, totals: Metrics): UserRow
  {
    if row.index == author then row.(metrics := totals) else row
  }

  /**
   * update_aggregated_metrics: read the author's first users row, compute
   * the totals, and only when at least one of the four differs from the
   * stored row assign them to the author's rows and write the table back
   * (`Ok(true)`); otherwise leave everything as it was (`Ok(false)`). An
   * author with no users row raises.
   */
  method UpdateAggregatedMetrics(users: Frame<UserRow>, author: string, tweets: seq<TweetRow>)
      returns (outcome: Result<bool, Error>)
    modifies users
    ensures FindUserRow(old(users.rows), author).None? ==> outcome == Err(NoSuchUser) && users.rows == old(users.rows)
    ensures FindUserRow(old(users.rows), author).Some? ==>
      var stored := old(users.rows)[FindUserRow(old(users.rows), author).value].metrics;
      var totals := AggregatedTotals(stored, tweets, author);
      && outcome == Ok(totals != stored)
      && (totals == stored ==> users.rows == old(users.rows))
      && (totals != stored ==>
            |users.rows| == |old(users.rows)|
            && forall j :: 0 <= j < |users.rows| ==> users.rows[j] == ApplyTotals(old(users.rows)[j], author, totals))
  {
    var found := FindUserRow(users.rows, author);
    if found.None? {
      return Err(NoSuchUser);
    }
    var stored := users.rows[found.value].metrics;
    var totals := AggregateTotals(stored, tweets, author);
    if totals.favorites != stored.favorites || totals.retweets != stored.retweets
       || totals.replies != stored.replies || totals.impressions != stored.impressions {
      var rows := users.rows;
      users.rows := seq(|rows|, j requires 0 <= j < |rows| => ApplyTotals(rows[j], author, totals));
      outcome := Ok(true);
    } else {
      outcome := Ok(false);
    }
  }
}
