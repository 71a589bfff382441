/**
 * The membership helpers of depreciated/nft_inspect_tools.py, with the
 * NFTInspect HTTP responses and the users-table read given as inputs:
 * filtering a collection's members down to the ones the users table knows,
 * stacking the per-collection frames, picking out the members who wear the
 * collection's picture, and the guarded edits of the tracked collections.
 */
module NftInspect {
  import opened Wrappers
  import ConfigState

  /** One member as the collection endpoint reports it (the columns the helpers use). */
  datatype Member = Member(name: string, username: string, wearingPfp: int, pfpUrl: string, globalReach: real, rank: int)

  /** The members of `ms` that `keep` accepts, in their original order. */
  function Filter(ms: seq<Member>, keep: Member -> bool): (r: seq<Member>)
    ensures |r| <= |ms|
    ensures forall m :: m in r <==> m in ms && keep(m)
  {
    if |ms| == 0 then []
    else
      var last := ms[|ms| - 1];
      assert ms == ms[..|ms| - 1] + [last];
      Filter(ms[..|ms| - 1], keep) + (if keep(last) then [last] else [])
  }

  /** Filtering keeps order: filtering two stretches is filtering their concatenation. */
  lemma {:induction false} FilterAppend(a: seq<Member>, b: seq<Member>, keep: Member -> bool)
    ensures Filter(a + b, keep) == Filter(a, keep) + Filter(b, keep)
    decreases |b|
  {
    if |b| > 0 {
      var init := b[..|b| - 1];
      assert (a + b)[..|a + b| - 1] == a + init;
      FilterAppend(a, init, keep);
    } else {
      assert a + b == a;
    }
  }

  predicate IsWearing(m: Member)
  {
    m.wearingPfp > 0
  }

  /** The five aligned columns of get_wearing_list describe exactly the members `kept`. */
  predicate Columns(kept: seq<Member>, wearing: seq<string>, userNames: seq<string>, ranks: seq<int>,
                    reach: seq<real>, pfpUrls: seq<string>)
  {
    && |wearing| == |kept| && |userNames| == |kept| && |ranks| == |kept| && |reach| == |kept| && |pfpUrls| == |kept|
    && forall k :: 0 <= k < |kept| ==>
         && wearing[k] == kept[k].name
         && userNames[k] == kept[k].username
         && ranks[k] == kept[k].rank
         && reach[k] == kept[k].globalReach * 100.0
         && pfpUrls[k] == kept[k].pfpUrl
  }

  /** One more kept member extends each column by its entry. */
  lemma ColumnsAppend(kept: seq<Member>, wearing: seq<string>, userNames: seq<string>, ranks: seq<int>,
                      reach: seq<real>, pfpUrls: seq<string>, m: Member)
    requires Columns(kept, wearing, userNames, ranks, reach, pfpUrls)
    ensures Columns(kept + [m], wearing + [m.name], userNames + [m.username], ranks + [m.rank],
                    reach + [m.globalReach * 100.0], pfpUrls + [m.pfpUrl])
  {
  }

  /**
   * get_wearing_list: walk the frame with a row counter and keep every
   * member whose "Wearing PFP" value is positive. The five lists come back
   * aligned, one entry per kept member, with the global reach scaled to a
   * percentage.
   */
  method GetWearingList(members: seq<Member>)
    returns (wearing: seq<string>, userNames: seq<string>, ranks: seq<int>, reach: seq<real>, pfpUrls: seq<string>)
    ensures Columns(Filter(members, IsWearing), wearing, userNames, ranks, reach, pfpUrls)
  {
    wearing, userNames, ranks, reach, pfpUrls := [], [], [], [], [];
    var iter := 0;
    while iter < |members|
      invariant iter <= |members|
      invariant Columns(Filter(members[..iter], IsWearing), wearing, userNames, ranks, reach, pfpUrls)
    {
      var m := members[iter];
      ghost var kept := Filter(members[..iter], IsWearing);
      assert members[..iter + 1][..iter] == members[..iter];
      if m.wearingPfp > 0 {
        ColumnsAppend(kept, wearing, userNames, ranks, reach, pfpUrls, m);
        wearing := wearing + [m.name];
        userNames := userNames + [m.username];
        ranks := ranks + [m.rank];
        reach := reach + [m.globalReach * 100.0];
        pfpUrls := pfpUrls + [m.pfpUrl];
      }
      iter := iter + 1;
    }
    assert members[..|members|] == members;
  }

  /** A member is kept when the users table holds someone of that name. */
  function IsKnown(names: seq<string>): Member -> bool
  {
    (m: Member) => m.name in names
  }

  /**
   * The loop of get_collection_members: every member of the collection
   * whose name appears in the users table's Name column joins the frame,
   * in the order the endpoint lists them.
   */
  method CollectionMembers(members: seq<Member>, names: seq<string>) returns (frame: seq<Member>)
    ensures frame == Filter(members, IsKnown(names))
    ensures forall m :: m in frame <==> m in members && m.name in names
  {
    frame := [];
    for i := 0 to |members|
      invariant frame == Filter(members[..i], IsKnown(names))
    {
      assert members[..i + 1][..i] == members[..i];
      if members[i].name in names {
        frame := frame + [members[i]];
      }
    }
    assert members[..|members|] == members;
  }

  /** The frames of the first `|fetched|` collections, stacked in collection order. */
  function Stacked(fetched: seq<seq<Member>>, names: seq<string>): (r: seq<Member>)
    ensures forall m :: m in r ==> m.name in names && exists i :: 0 <= i < |fetched| && m in fetched[i]
    ensures forall i, m :: 0 <= i < |fetched| && m in fetched[i] && m.name in names ==> m in r
  {
    if |fetched| == 0 then []
    else
      var init := fetched[..|fetched| - 1];
      var r := Stacked(init, names) + Filter(fetched[|fetched| - 1], IsKnown(names));
      assert forall i :: 0 <= i < |init| ==> init[i] == fetched[i];
      r
  }

  /**
   * get_db_members_collections_stats: `fetched[i]` is what the endpoint
   * returned for the i-th collection; each is filtered against the users
   * table and the results are concatenated in collection order.
   */
  method DbMembersCollectionsStats(fetched: seq<seq<Member>>, names: seq<string>) returns (total: seq<Member>)
    ensures total == Stacked(fetched, names)
    ensures forall m :: m in total ==> m.name in names
  {
    total := [];
    for i := 0 to |fetched|
      invariant total == Stacked(fetched[..i], names)
    {
      var frame := CollectionMembers(fetched[i], names);
      assert fetched[..i + 1][..i] == fetched[..i];
      total := total + frame;
    }
    assert fetched[..|fetched|] == fetched;
  }

  /** A list with every entry present once. */
  predicate NoDuplicates<T(==)>(xs: seq<T>)
  {
    forall i, j :: 0 <= i < j < |xs| ==> xs[i] != xs[j]
  }

  /**
   * add_collection_to_track, as evidently intended: track the name unless
   * it is tracked already, so no duplicate is ever introduced.
   */
  method AddCollectionToTrack(config: ConfigState.Config, collection: string)
    modifies config`collections, config`updateFlag
    ensures ConfigState.Named(collection) in old(config.collections) ==>
      config.collections == old(config.collections) && config.updateFlag == old(config.updateFlag)
    ensures ConfigState.Named(collection) !in old(config.collections) ==>
      config.collections == old(config.collections) + [ConfigState.Named(collection)] && config.updateFlag
    ensures NoDuplicates(old(config.collections)) ==> NoDuplicates(config.collections)
  {
    if ConfigState.Named(collection) !in config.collections {
      config.AddCollectionToTrack(ConfigState.Named(collection));
    }
  }

  /**
   * remove_collection_to_track, as evidently intended: drop the first
   * occurrence of the name when it is tracked; otherwise change nothing.
   */
  method RemoveCollectionToTrack(config: ConfigState.Config, collection: string)
    modifies config`collections
    ensures ConfigState.Named(collection) !in old(config.collections) ==> config.collections == old(config.collections)
    ensures ConfigState.Named(collection) in old(config.collections) ==>
      && ConfigState.DropsFirst(old(config.collections), ConfigState.Named(collection), config.collections)
      && |config.collections| == |old(config.collections)| - 1
      && multiset(config.collections) == multiset(old(config.collections)) - multiset{ConfigState.Named(collection)}
  {
    var removed := ConfigState.RemoveFirst(config.collections, ConfigState.Named(collection));
    if removed.Some? {
      config.collections := removed.value;
    }
  }

  /** On a list without duplicates, removal takes the name out altogether. */
  lemma RemoveLeavesNoCopy(collections: seq<ConfigState.Tracked>, collection: string)
    requires NoDuplicates(collections)
    requires ConfigState.Named(collection) in collections
    ensures ConfigState.Named(collection) !in ConfigState.RemoveFirst(collections, ConfigState.Named(collection)).value
  {
    var x := ConfigState.Named(collection);
    var rest := ConfigState.RemoveFirst(collections, x).value;
    var i :| 0 <= i < |collections| && collections[i] == x;
    assert multiset(collections)[x] == 1 by {
      MultiplicityOfDistinct(collections, i);
    }
    assert multiset(rest)[x] == 0;
  }

  lemma {:induction false} MultiplicityOfDistinct<T>(xs: seq<T>, i: nat)
    requires NoDuplicates(xs) && i < |xs|
    ensures multiset(xs)[xs[i]] == 1
  {
    var x := xs[i];
    assert xs == xs[..i] + [x] + xs[i + 1..];
    assert x !in xs[..i] by {
      forall j | 0 <= j < i ensures xs[..i][j] != x { }
    }
    var tail := xs[i + 1..];
    assert x !in tail by {
      forall j | 0 <= j < |tail| ensures tail[j] != x {
        assert tail[j] == xs[i + 1 + j];
      }
    }
  }

  /** Why a helper raises as written. */
  datatype CallError = MissingSelfArgument | NoSuchMethod(name: string)

  /** `Config.get_config()`: the instance method called on the class, with no instance, raises TypeError. */
  function GetConfigOnClass(): (r: Result<(), CallError>)
    ensures r.Err? && r.error == MissingSelfArgument
  {
    Err(MissingSelfArgument)
  }

  /**
   * The rest of add_collection_to_track as written: a tracked name is left
   * alone; a new one reaches `config.append_collections`, which Config does
   * not define, and raises AttributeError.
   */
  function AddBodyAsWritten(collections: seq<ConfigState.Tracked>, collection: string)
    : (r: Result<seq<ConfigState.Tracked>, CallError>)
    ensures r.Ok? <==> ConfigState.Named(collection) in collections
    ensures r.Ok? ==> r.value == collections
  {
    if ConfigState.Named(collection) !in collections then Err(NoSuchMethod("append_collections"))
    else Ok(collections)
  }

  /** The rest of remove_collection_to_track as written: drop the first occurrence of a tracked name. */
  function RemoveBodyAsWritten(collections: seq<ConfigState.Tracked>, collection: string)
    : (r: Result<seq<ConfigState.Tracked>, CallError>)
    ensures r.Ok?
    ensures ConfigState.Named(collection) !in collections ==> r.value == collections
    ensures ConfigState.Named(collection) in collections ==>
      && ConfigState.DropsFirst(collections, ConfigState.Named(collection), r.value)
      && multiset(r.value) == multiset(collections) - multiset{ConfigState.Named(collection)}
  {
    match ConfigState.RemoveFirst(collections, ConfigState.Named(collection))
    case None => Ok(collections)
    case Some(rest) => Ok(rest)
  }

  /** add_collection_to_track as written: its first statement raises, so the body never runs. */
  function AddCollectionToTrackAsWritten(collections: seq<ConfigState.Tracked>, collection: string)
    : (r: Result<seq<ConfigState.Tracked>, CallError>)
    ensures r == Err(MissingSelfArgument)
  {
    match GetConfigOnClass()
    case Err(e) => Err(e)
    case Ok(_) => AddBodyAsWritten(collections, collection)
  }

  /** remove_collection_to_track as written: its first statement raises, so the removal never runs. */
  function RemoveCollectionToTrackAsWritten(collections: seq<ConfigState.Tracked>, collection: string)
    : (r: Result<seq<ConfigState.Tracked>, CallError>)
    ensures r == Err(MissingSelfArgument)
  {
    match GetConfigOnClass()
    case Err(e) => Err(e)
    case Ok(_) => RemoveBodyAsWritten(collections, collection)
  }

  /** As written, neither helper ever changes the tracked collections, whatever the name. */
  lemma AsWrittenNeverChangesCollections(collections: seq<ConfigState.Tracked>, collection: string)
    ensures ConfigState.Named(collection) !in collections ==>
      AddCollectionToTrackAsWritten(collections, collection) != Ok(collections + [ConfigState.Named(collection)])
    ensures ConfigState.Named(collection) in collections ==>
      RemoveCollectionToTrackAsWritten(collections, collection).Err?
  {
  }
}
