/** The state the two relay threads share (`MTTThread`, mtt/utils.py:16-55): the
    toot/tweet associations used to mirror threads, and the "sent" lists used to
    keep a status the relay itself posted from bouncing back. */
module SharedState {
  import opened Python

  // ---------------------------------------------------------------------------
  // Associations

  /** `status_associations`: `m2t` maps a toot id to the tweet that mirrors it (the
      last tweet of its thread), `t2m` maps a tweet id to the toot it mirrors. */
  datatype Links = Links(m2t: map<Value, Value>, t2m: map<Value, Value>)

  /** Every association can be followed across and lands on a known id of the
      other side. */
  predicate Linked(a: Links) {
    (forall k :: k in a.m2t ==> a.m2t[k] in a.t2m) &&
    (forall tw :: tw in a.t2m ==> a.t2m[tw] in a.m2t)
  }

  /** `t2m` is exactly the inverse of `m2t`. */
  predicate Inverse(a: Links) {
    (forall k :: k in a.m2t ==> a.m2t[k] in a.t2m && a.t2m[a.m2t[k]] == k) &&
    (forall tw :: tw in a.t2m ==> a.t2m[tw] in a.m2t && a.m2t[a.t2m[tw]] == tw)
  }

  /** `associate_status(toot_id, tweet_id)` (mtt/utils.py:48-55): both maps are
      written together and no other key changes. */
  function Associate(a: Links, toot: Value, tweet: Value): (r: Links)
    ensures toot in r.m2t && r.m2t[toot] == tweet
    ensures tweet in r.t2m && r.t2m[tweet] == toot
    ensures r.m2t.Keys == a.m2t.Keys + {toot} && r.t2m.Keys == a.t2m.Keys + {tweet}
    ensures forall k :: k in a.m2t && k != toot ==> r.m2t[k] == a.m2t[k]
    ensures forall tw :: tw in a.t2m && tw != tweet ==> r.t2m[tw] == a.t2m[tw]
  {
    Links(a.m2t[toot := tweet], a.t2m[tweet := toot])
  }

  /** Associating the same pair twice is the same as once. */
  lemma AssociateIdempotent(a: Links, toot: Value, tweet: Value)
    ensures Associate(Associate(a, toot, tweet), toot, tweet) == Associate(a, toot, tweet)
  {
    var once := Associate(a, toot, tweet);
    assert once.m2t[toot := tweet] == once.m2t;
    assert once.t2m[tweet := toot] == once.t2m;
  }

  /** Associating keeps every association followable. */
  lemma AssociateKeepsLinked(a: Links, toot: Value, tweet: Value)
    requires Linked(a)
    ensures Linked(Associate(a, toot, tweet))
  {
  }

  /** `t2m` stays the inverse of `m2t` when the pair is new on both sides, or is
      already recorded. */
  lemma AssociateKeepsInverse(a: Links, toot: Value, tweet: Value)
    requires Inverse(a)
    requires (toot !in a.m2t && tweet !in a.t2m) || (toot in a.m2t && a.m2t[toot] == tweet)
    ensures Inverse(Associate(a, toot, tweet))
  {
    var r := Associate(a, toot, tweet);
    forall k | k in r.m2t
      ensures r.m2t[k] in r.t2m && r.t2m[r.m2t[k]] == k
    {
      if k != toot {
        assert a.m2t[k] != tweet;
      }
    }
    forall tw | tw in r.t2m
      ensures r.t2m[tw] in r.m2t && r.m2t[r.t2m[tw]] == tw
    {
      if tw != tweet {
        assert a.t2m[tw] != toot;
      }
    }
  }

  /** Re-associating a toot with a different tweet leaves the old tweet pointing at
      the toot, so `t2m` is no longer the inverse of `m2t`. */
  lemma ReassociateBreaksInverse(a: Links, toot: Value, tweet: Value)
    requires Inverse(a)
    requires toot in a.m2t && a.m2t[toot] != tweet
    ensures !Inverse(Associate(a, toot, tweet))
  {
    var r := Associate(a, toot, tweet);
    var old_tweet := a.m2t[toot];
    assert old_tweet in r.t2m && r.t2m[old_tweet] == toot;
    assert r.m2t[r.t2m[old_tweet]] != old_tweet;
  }

  // ---------------------------------------------------------------------------
  // Loading the associations at startup

  /** A JSON object read into a dict: no key twice. */
  predicate DistinctKeys(entries: seq<(Value, Value)>) {
    forall i, j :: 0 <= i < j < |entries| ==> entries[i].0 != entries[j].0
  }

  predicate DistinctValues(entries: seq<(Value, Value)>) {
    forall i, j :: 0 <= i < j < |entries| ==> entries[i].1 != entries[j].1
  }

  /** The associations rebuilt from the saved `m2t` entries, in file order
      (mtt/__main__.py:67-71): `m2t` is the loaded dict and `t2m` its inverse by
      comprehension, where a later toot wins a shared tweet. */
  function Rebuild(entries: seq<(Value, Value)>): (r: Links)
    ensures entries != [] ==> var last := entries[|entries| - 1]; last.0 in r.m2t && r.m2t[last.0] == last.1
    decreases |entries|
  {
    if entries == [] then Links(map[], map[])
    else Associate(Rebuild(entries[..|entries| - 1]), entries[|entries| - 1].0, entries[|entries| - 1].1)
  }

  /** The rebuilt `m2t` knows exactly the saved toots... */
  lemma {:induction false} RebuildTootDomain(entries: seq<(Value, Value)>, k: Value)
    ensures k in Rebuild(entries).m2t <==> exists i :: 0 <= i < |entries| && entries[i].0 == k
    decreases |entries|
  {
    if entries != [] {
      var init := entries[..|entries| - 1];
      RebuildTootDomain(init, k);
      if exists i :: 0 <= i < |init| && init[i].0 == k {
        var i :| 0 <= i < |init| && init[i].0 == k;
        assert entries[i] == init[i];
      }
      if exists i :: 0 <= i < |entries| && entries[i].0 == k {
        var i :| 0 <= i < |entries| && entries[i].0 == k;
        if i < |init| {
          assert init[i] == entries[i];
        }
      }
    }
  }

  /** The last saved entry of a toot decides its tweet: an entry that no later
      entry overrides maps its toot to its tweet in the rebuilt `m2t`. */
  lemma {:induction false} RebuildLastWins(entries: seq<(Value, Value)>, i: nat)
    requires i < |entries|
    requires forall j :: i < j < |entries| ==> entries[j].0 != entries[i].0
    ensures entries[i].0 in Rebuild(entries).m2t && Rebuild(entries).m2t[entries[i].0] == entries[i].1
    decreases |entries|
  {
    if i < |entries| - 1 {
      var init := entries[..|entries| - 1];
      assert init[i] == entries[i];
      assert forall j :: i < j < |init| ==> init[j] == entries[j];
      RebuildLastWins(init, i);
    }
  }

  /** ... and the rebuilt `t2m` exactly the saved tweets. */
  lemma {:induction false} RebuildTweetDomain(entries: seq<(Value, Value)>, tw: Value)
    ensures tw in Rebuild(entries).t2m <==> exists i :: 0 <= i < |entries| && entries[i].1 == tw
    decreases |entries|
  {
    if entries != [] {
      var init := entries[..|entries| - 1];
      RebuildTweetDomain(init, tw);
      if exists i :: 0 <= i < |init| && init[i].1 == tw {
        var i :| 0 <= i < |init| && init[i].1 == tw;
        assert entries[i] == init[i];
      }
      if exists i :: 0 <= i < |entries| && entries[i].1 == tw {
        var i :| 0 <= i < |entries| && entries[i].1 == tw;
        if i < |init| {
          assert init[i] == entries[i];
        }
      }
    }
  }

  /** Whatever was saved, the rebuilt associations are followable. */
  lemma {:induction false} RebuildLinked(entries: seq<(Value, Value)>)
    ensures Linked(Rebuild(entries))
    decreases |entries|
  {
    if entries != [] {
      var init := entries[..|entries| - 1];
      RebuildLinked(init);
      AssociateKeepsLinked(Rebuild(init), entries[|entries| - 1].0, entries[|entries| - 1].1);
    }
  }

  /** When no tweet is saved twice, the rebuilt `t2m` is exactly the inverse of
      `m2t`. */
  lemma {:induction false} RebuildInverse(entries: seq<(Value, Value)>)
    requires DistinctKeys(entries) && DistinctValues(entries)
    ensures Inverse(Rebuild(entries))
    decreases |entries|
  {
    if entries != [] {
      var init := entries[..|entries| - 1];
      var last := entries[|entries| - 1];
      assert forall i :: 0 <= i < |init| ==> init[i] == entries[i];
      RebuildInverse(init);
      RebuildTootDomain(init, last.0);
      RebuildTweetDomain(init, last.1);
      AssociateKeepsInverse(Rebuild(init), last.0, last.1);
    }
  }

  // ---------------------------------------------------------------------------
  // Reading the saved file

  /** The keys of a dict kept as its items in insertion order. */
  function KeysOf(d: seq<(Value, Value)>): set<Value>
    decreases |d|
  {
    if d == [] then {} else {d[0].0} + KeysOf(d[1..])
  }

  lemma {:induction false} KeysOfIndex(d: seq<(Value, Value)>, x: Value)
    ensures x in KeysOf(d) <==> exists i :: 0 <= i < |d| && d[i].0 == x
    decreases |d|
  {
    if d != [] {
      KeysOfIndex(d[1..], x);
      if exists i :: 0 <= i < |d| && d[i].0 == x {
        var i :| 0 <= i < |d| && d[i].0 == x;
        if i > 0 {
          assert d[1..][i - 1] == d[i];
        }
      }
      if exists i :: 0 <= i < |d[1..]| && d[1..][i].0 == x {
        var i :| 0 <= i < |d[1..]| && d[1..][i].0 == x;
        assert d[i + 1] == d[1..][i];
      }
    }
  }

  /** `d[k] = v` on a dict kept as its items in insertion order: a key already
      there keeps its place and takes the new value, a new key goes last. */
  function DictSet(d: seq<(Value, Value)>, k: Value, v: Value): (r: seq<(Value, Value)>)
    ensures KeysOf(r) == KeysOf(d) + {k}
    ensures (k, v) in r
    ensures forall i :: 0 <= i < |d| && d[i].0 != k ==> d[i] in r
    ensures k !in KeysOf(d) ==> r == d + [(k, v)]
    decreases |d|
  {
    if d == [] then [(k, v)]
    else if d[0].0 == k then [(k, v)] + d[1..]
    else [d[0]] + DictSet(d[1..], k, v)
  }

  /** Setting a key keeps a dict free of repeated keys. */
  lemma {:induction false} DictSetDistinct(d: seq<(Value, Value)>, k: Value, v: Value)
    requires DistinctKeys(d)
    ensures DistinctKeys(DictSet(d, k, v))
    decreases |d|
  {
    if d != [] {
      var tail := d[1..];
      assert DistinctKeys(tail) by {
        assert forall i :: 0 <= i < |tail| ==> tail[i] == d[i + 1];
      }
      if d[0].0 != k {
        DictSetDistinct(tail, k, v);
        var r := DictSet(tail, k, v);
        KeysOfIndex(tail, d[0].0);
        KeysOfIndex(r, d[0].0);
        assert forall i :: 0 < i < |tail| + 0 + 1 && i <= |r| ==> ([d[0]] + r)[i] == r[i - 1];
      }
    }
  }

  /** A key of `init + [last]` fails `int()` exactly when one of `init` or `last` does. */
  lemma IntKeysSnoc(init: seq<(string, Value)>, last: (string, Value))
    ensures (exists i :: 0 <= i < |init + [last]| && ParseInt((init + [last])[i].0).None?) <==>
            (exists i :: 0 <= i < |init| && ParseInt(init[i].0).None?) || ParseInt(last.0).None?
  {
    var saved := init + [last];
    assert saved[|init|] == last;
    assert forall i :: 0 <= i < |init| ==> saved[i] == init[i];
  }

  /** `{int(k): v for k, v in d.items()}`, the `object_hook` of mtt/__main__.py:70,
      over the items of the saved object: `None` when a key is not an int literal,
      as `int(k)` then raises `ValueError`. */
  function IntKeys(saved: seq<(string, Value)>): (r: Option<seq<(Value, Value)>>)
    ensures r.None? <==> exists i :: 0 <= i < |saved| && ParseInt(saved[i].0).None?
    ensures r.Some? ==> DistinctKeys(r.value)
    decreases |saved|
  {
    if saved == [] then Some([])
    else
      var init, last := saved[..|saved| - 1], saved[|saved| - 1];
      assert init + [last] == saved;
      IntKeysSnoc(init, last);
      match IntKeys(init)
      case None => None
      case Some(d) =>
        match ParseInt(last.0)
        case None => None
        case Some(n) => DictSetDistinct(d, Int(n), last.1); Some(DictSet(d, Int(n), last.1))
  }

  /** The file as mtt/utils.py:57-60 writes `m2t` with `json.dump`, for int toot
      ids: every key as its `str()`, in order. */
  function Dumped(entries: seq<(Value, Value)>): (r: seq<(string, Value)>)
    requires forall i :: 0 <= i < |entries| ==> entries[i].0.Int?
    ensures |r| == |entries|
    ensures forall i :: 0 <= i < |entries| ==> r[i] == (IntToString(entries[i].0.i), entries[i].1)
    decreases |entries|
  {
    if entries == [] then []
    else Dumped(entries[..|entries| - 1]) + [(ToStr(entries[|entries| - 1].0), entries[|entries| - 1].1)]
  }

  /** One more saved item whose key is an int literal sets that key. */
  lemma IntKeysAppend(saved: seq<(string, Value)>, key: string, v: Value, d: seq<(Value, Value)>, n: int)
    requires IntKeys(saved) == Some(d) && ParseInt(key) == Some(n)
    ensures IntKeys(saved + [(key, v)]) == Some(DictSet(d, Int(n), v))
  {
    var longer := saved + [(key, v)];
    assert longer[..|longer| - 1] == saved;
  }

  /** Dumping one more entry appends its line. */
  lemma DumpedSnoc(init: seq<(Value, Value)>, last: (Value, Value))
    requires forall i :: 0 <= i < |init| ==> init[i].0.Int?
    requires last.0.Int?
    ensures Dumped(init + [last]) == Dumped(init) + [(IntToString(last.0.i), last.1)]
  {
    var entries := init + [last];
    assert entries[..|entries| - 1] == init;
  }

  /** The last key of a dict free of repeated keys is not among the others. */
  lemma LastKeyFresh(init: seq<(Value, Value)>, last: (Value, Value))
    requires DistinctKeys(init + [last])
    ensures DistinctKeys(init)
    ensures last.0 !in KeysOf(init)
  {
    var entries := init + [last];
    assert entries[|init|] == last;
    assert forall i :: 0 <= i < |init| ==> init[i] == entries[i];
    KeysOfIndex(init, last.0);
  }

  /** Saving the associations with int toot ids and loading them back gives the
      same entries, in the same order. */
  lemma {:induction false} IntKeysOfDumped(entries: seq<(Value, Value)>)
    requires DistinctKeys(entries)
    requires forall i :: 0 <= i < |entries| ==> entries[i].0.Int?
    ensures IntKeys(Dumped(entries)) == Some(entries)
    decreases |entries|
  {
    if entries != [] {
      var init, last := entries[..|entries| - 1], entries[|entries| - 1];
      assert init + [last] == entries;
      LastKeyFresh(init, last);
      assert forall i :: 0 <= i < |init| ==> init[i].0.Int? by {
        assert forall i :: 0 <= i < |init| ==> init[i] == entries[i];
      }
      IntKeysOfDumped(init);
      DumpedSnoc(init, last);
      ParseIntOfToString(last.0.i);
      IntKeysAppend(Dumped(init), IntToString(last.0.i), last.1, init, last.0.i);
    }
  }

  // ---------------------------------------------------------------------------
  // The "sent" lists

  /** `str(id) in sent` (mtt/utils.py:40-46). */
  predicate SentByUs(sent: seq<Value>, id: Value) {
    Str(ToStr(id)) in sent
  }

  /** `id in sent` with the raw id, as mtt/twitter_to_mastodon.py:51 tests it. */
  predicate SeenRaw(sent: seq<Value>, id: Value) {
    id in sent
  }

  /** As written, mtt/twitter_to_mastodon.py:51 looks a tweet id up raw in a list
      that mtt/utils.py:38 fills with `str(id)`: a tweet the relay posted under an
      int id is never recognised. */
  lemma RawLookupMissesMarkedTweet(sent: seq<Value>, i: int)
    requires !SeenRaw(sent, Int(i))
    ensures SentByUs(sent + [Str(ToStr(Int(i)))], Int(i))
    ensures !SeenRaw(sent + [Str(ToStr(Int(i)))], Int(i))
  {
  }

  /** As written, mtt/twitter_to_mastodon.py:178 appends the raw toot id, which
      `str(id) in sent` (mtt/utils.py:42) never finds for an int id. */
  lemma RawAppendMissedByStrLookup(sent: seq<Value>, i: int)
    requires !SentByUs(sent, Int(i))
    ensures !SentByUs(sent + [Int(i)], Int(i))
  {
  }

  // ---------------------------------------------------------------------------
  // The shared state as an object

  /** The `status_associations` and `sent_status` dicts shared by both publisher
      threads; both hold a reference to the same object. */
  class Ledger {
    var m2t: map<Value, Value>
    var t2m: map<Value, Value>
    var sentToots: seq<Value>
    var sentTweets: seq<Value>

    function Associations(): Links
      reads this
    {
      Links(m2t, t2m)
    }

    ghost predicate Valid()
      reads this
    {
      Linked(Links(m2t, t2m))
    }

    /** The startup state from the saved entries once their keys are converted:
        associations rebuilt from them, empty sent lists (mtt/__main__.py:67-84). */
    constructor Load(saved: seq<(Value, Value)>)
      requires DistinctKeys(saved)
      ensures Links(m2t, t2m) == Rebuild(saved)
      ensures sentToots == [] && sentTweets == []
      ensures Valid()
    {
      var a := Rebuild(saved);
      RebuildLinked(saved);
      m2t, t2m := a.m2t, a.t2m;
      sentToots, sentTweets := [], [];
    }

    /** The startup of mtt/__main__.py:67-84. `file` holds the items of the saved
        object, `None` when the file cannot be opened (an `IOError`, caught: no
        associations). The result is `null` when a saved key is not an int: the
        `ValueError` of `int(k)` is not caught, and the program stops. */
    static method Startup(file: Option<seq<(string, Value)>>) returns (ledger: Ledger?)
      ensures ledger == null <==> file.Some? && IntKeys(file.value).None?
      ensures ledger != null ==>
                fresh(ledger) && ledger.sentToots == [] && ledger.sentTweets == [] && ledger.Valid() &&
                ledger.Associations() == (if file.None? then Links(map[], map[]) else Rebuild(IntKeys(file.value).value))
    {
      if file.None? {
        ledger := new Ledger.Load([]);
      } else {
        var entries := IntKeys(file.value);
        if entries.None? {
          return null;
        }
        ledger := new Ledger.Load(entries.value);
      }
    }

    /** `mark_toot_sent` (mtt/utils.py:32-34). */
    method MarkTootSent(id: Value)
      modifies this
      ensures sentToots == old(sentToots) + [Str(ToStr(id))]
      ensures IsTootSentByUs(id)
      ensures sentTweets == old(sentTweets) && m2t == old(m2t) && t2m == old(t2m)
    {
      sentToots := sentToots + [Str(ToStr(id))];
    }

    /** `mark_tweet_sent` (mtt/utils.py:36-38). */
    method MarkTweetSent(id: Value)
      modifies this
      ensures sentTweets == old(sentTweets) + [Str(ToStr(id))]
      ensures IsTweetSentByUs(id)
      ensures sentToots == old(sentToots) && m2t == old(m2t) && t2m == old(t2m)
    {
      sentTweets := sentTweets + [Str(ToStr(id))];
    }

    /** `self.sent_status['toots'].append(since_toot_id)` as mtt/twitter_to_mastodon.py:178
        writes it, with the raw id. */
    method AppendTootRaw(id: Value)
      modifies this
      ensures sentToots == old(sentToots) + [id]
      ensures sentTweets == old(sentTweets) && m2t == old(m2t) && t2m == old(t2m)
    {
      sentToots := sentToots + [id];
    }

    /** `is_toot_sent_by_us` (mtt/utils.py:40-42): an id and its `str()` get the
        same answer, and only a string in the list is ever found. */
    predicate IsTootSentByUs(id: Value): (r: bool)
      reads this
      ensures r == SentByUs(sentToots, Str(ToStr(id)))
      ensures r ==> exists i :: 0 <= i < |sentToots| && sentToots[i].Str?
    {
      SentByUs(sentToots, id)
    }

    /** `is_tweet_sent_by_us` (mtt/utils.py:44-46): an id and its `str()` get the
        same answer, and only a string in the list is ever found. */
    predicate IsTweetSentByUs(id: Value): (r: bool)
      reads this
      ensures r == SentByUs(sentTweets, Str(ToStr(id)))
      ensures r ==> exists i :: 0 <= i < |sentTweets| && sentTweets[i].Str?
    {
      SentByUs(sentTweets, id)
    }

    /** `associate_status` (mtt/utils.py:48-55). */
    method AssociateStatus(toot: Value, tweet: Value)
      modifies this
      ensures Links(m2t, t2m) == Associate(old(Links(m2t, t2m)), toot, tweet)
      ensures sentToots == old(sentToots) && sentTweets == old(sentTweets)
      ensures old(Valid()) ==> Valid()
    {
      if Valid() {
        AssociateKeepsLinked(Links(m2t, t2m), toot, tweet);
      }
      t2m := t2m[tweet := toot];
      m2t := m2t[toot := tweet];
    }
  }
}
