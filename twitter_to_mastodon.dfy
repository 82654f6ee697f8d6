/** The Twitter to Mastodon direction (`MastodonPublisher`, mtt/twitter_to_mastodon.py):
    each tweet of the user stream is screened, rewritten into toot text (mentions
    marked as Twitter accounts, short links expanded, the content warning pulled
    out, media links removed) and tooted with a fall-back without reply target and
    a bounded number of retries. */
module TwitterToMastodon {
  import opened Python
  import opened SharedState

  // ---------------------------------------------------------------------------
  // Stream items

  /** A URL entity: the `t.co` link and the link it stands for. */
  datatype UrlEntity = UrlEntity(url: string, expandedUrl: string)

  /** A media entity: its `t.co` link in the text and where to download it from. */
  datatype MediaEntity = MediaEntity(url: string, mediaUrlHttps: Option<string>, mediaUrl: string)

  /** The optional `entities` dict of a tweet. */
  datatype Entities = Entities(media: Option<seq<MediaEntity>>, urls: Option<seq<UrlEntity>>)

  /** A stream item as a dict: `None` for a key it does not have, `Some(NoneValue)`
      for a key whose value is `None`. */
  datatype StreamItem = StreamItem(
    id: Value, text: Option<string>, fullText: Option<string>,
    inReplyToUserId: Option<Value>, inReplyToStatusId: Option<Value>,
    media: Option<seq<MediaEntity>>, urls: Option<seq<UrlEntity>>,
    entities: Option<Entities>, possiblySensitive: Option<bool>)

  /** The media of a tweet: its own `media` list, else that of its entities, else
      none (mtt/twitter_to_mastodon.py:71-73). */
  function MediaOf(t: StreamItem): seq<MediaEntity> {
    if t.media.Some? then t.media.value
    else if t.entities.Some? && t.entities.value.media.Some? then t.entities.value.media.value
    else []
  }

  /** The URL entities of a tweet, looked up the same way (mtt/twitter_to_mastodon.py:75-77). */
  function UrlsOf(t: StreamItem): seq<UrlEntity> {
    if t.urls.Some? then t.urls.value
    else if t.entities.Some? && t.entities.value.urls.Some? then t.entities.value.urls.value
    else []
  }

  /** `possibly_sensitive`, `False` when absent (mtt/twitter_to_mastodon.py:79). */
  function SensitiveOf(t: StreamItem): bool {
    if t.possiblySensitive.Some? then t.possiblySensitive.value else false
  }

  /** The download URL of a media entity, the https one when there is one
      (mtt/twitter_to_mastodon.py:106-107). */
  function MediaUrl(m: MediaEntity): string {
    if m.mediaUrlHttps.Some? then m.mediaUrlHttps.value else m.mediaUrl
  }

  // ---------------------------------------------------------------------------
  // Screening

  /** Why a stream item is not tooted. */
  datatype Skip = NoText | AlreadySent | IsReply

  /** What the relay makes of a stream item before rewriting it: skipped, or its
      raw text and the toot the new toot replies to (`None` for no reply). */
  datatype Screening = Ignore(why: Skip) | Go(content: string, replyTo: Value)

  /** The item answers a tweet: both reply fields are present and the user one
      is truthy (mtt/twitter_to_mastodon.py:58). */
  predicate AnswersATweet(t: StreamItem) {
    t.inReplyToUserId.Some? && t.inReplyToStatusId.Some? && Truthy(t.inReplyToUserId.value)
  }

  /** A reply we relay: it answers one of our own tweets that is already mirrored
      (mtt/twitter_to_mastodon.py:64-65). */
  predicate ContinuesOurThread(t: StreamItem, ourId: Value, t2m: map<Value, Value>)
    requires AnswersATweet(t)
  {
    t.inReplyToUserId.value == ourId && t.inReplyToStatusId.value in t2m
  }

  /** The skip rules of mtt/twitter_to_mastodon.py:46-69, in order: an item without
      text, a tweet the relay posted itself, a reply that does not continue one of
      our mirrored threads.  `sent` is the list of tweets the relay posted, read
      with `str(id)` as mtt/utils.py:44-46 does (the raw read of line 51 is a
      finding, see `SharedState.RawLookupMissesMarkedTweet`). */
  function ScreenTweet(t: StreamItem, ourId: Value, sent: seq<Value>, t2m: map<Value, Value>): (s: Screening)
    ensures s == Ignore(NoText) <==> t.text.None? && t.fullText.None?
    ensures s == Ignore(AlreadySent) <==> (t.text.Some? || t.fullText.Some?) && SentByUs(sent, t.id)
    ensures s == Ignore(IsReply) <==>
              (t.text.Some? || t.fullText.Some?) && !SentByUs(sent, t.id) &&
              AnswersATweet(t) && !ContinuesOurThread(t, ourId, t2m)
    ensures s.Go? ==> s.content == (if t.fullText.Some? then t.fullText.value else t.text.value)
    ensures s.Go? && AnswersATweet(t) ==> s.replyTo == t2m[t.inReplyToStatusId.value]
    ensures s.Go? && !AnswersATweet(t) ==> s.replyTo == NoneValue
  {
    Screened(t, ourId, SentByUs(sent, t.id), t2m)
  }

  /** The skip rules with the outcome of the sent test given as `seen`. */
  function Screened(t: StreamItem, ourId: Value, seen: bool, t2m: map<Value, Value>): Screening {
    if t.text.None? && t.fullText.None? then Ignore(NoText)
    else if seen then Ignore(AlreadySent)
    else
      var content := if t.fullText.Some? then t.fullText.value else t.text.value;
      if AnswersATweet(t) then
        if !ContinuesOurThread(t, ourId, t2m) then Ignore(IsReply)
        else Go(content, t2m[t.inReplyToStatusId.value])
      else Go(content, NoneValue)
  }

  /** The skip rules as mtt/twitter_to_mastodon.py:50-52 writes the sent test:
      the raw tweet id looked up in the list. */
  function ScreenTweetAsWritten(t: StreamItem, ourId: Value, sent: seq<Value>, t2m: map<Value, Value>): (s: Screening)
    ensures s == Ignore(AlreadySent) <==> (t.text.Some? || t.fullText.Some?) && SeenRaw(sent, t.id)
  {
    Screened(t, ourId, SeenRaw(sent, t.id), t2m)
  }

  /** As written, a tweet the relay posted under an int id, marked as sent by
      `mark_tweet_sent` (mtt/utils.py:36-38), comes back from the stream and is
      not skipped: a plain tweet goes on to be tooted again. */
  lemma EchoedTweetRelayedAsWritten(t: StreamItem, ourId: Value, sent: seq<Value>, t2m: map<Value, Value>, i: int)
    requires t.id == Int(i) && t.text.Some? && !AnswersATweet(t) && !SeenRaw(sent, t.id)
    ensures ScreenTweetAsWritten(t, ourId, sent + [Str(ToStr(t.id))], t2m).Go?
  {
    RawLookupMissesMarkedTweet(sent, i);
  }

  /** With the `str(id)` lookup of `is_tweet_sent_by_us`, the same tweet is
      skipped, whatever its id. */
  lemma EchoedTweetSkipped(t: StreamItem, ourId: Value, sent: seq<Value>, t2m: map<Value, Value>)
    requires t.text.Some? || t.fullText.Some?
    ensures ScreenTweet(t, ourId, sent + [Str(ToStr(t.id))], t2m) == Ignore(AlreadySent)
  {
    assert Str(ToStr(t.id)) == (sent + [Str(ToStr(t.id))])[|sent|];
  }

  // ---------------------------------------------------------------------------
  // Mentions

  /** What marks a mention as a Twitter account. */
  const TwitterSuffix := "@twitter.com"

  /** The number of leading characters that are not whitespace (`\S*`). */
  function TokenLen(s: string): (n: nat)
    ensures n <= |s| && NoSpace(s[..n])
    ensures n < |s| ==> IsSpace(s[n])
    decreases |s|
  {
    if s == [] || IsSpace(s[0]) then 0 else 1 + TokenLen(s[1..])
  }

  /** The first mention of a text starting with `@`: the `@` and the non-space
      characters after it. */
  function MentionLen(s: string): (n: nat)
    requires s != [] && s[0] == '@'
    ensures 1 <= n <= |s|
  {
    1 + TokenLen(s[1..])
  }

  /** `re.findall(r'[@]\S*', s)`: the mentions of a text, left to right. */
  function Mentions(s: string): seq<string>
    decreases |s|
  {
    if s == [] then []
    else if s[0] == '@' then [s[..MentionLen(s)]] + Mentions(s[MentionLen(s)..])
    else Mentions(s[1..])
  }

  /** The text with the Twitter suffix after each of its mentions, once: what the
      mention loop of mtt/twitter_to_mastodon.py:87-90 means to produce. */
  function Tagged(s: string): string
    decreases |s|
  {
    if s == [] then []
    else if s[0] == '@' then s[..MentionLen(s)] + TwitterSuffix + Tagged(s[MentionLen(s)..])
    else [s[0]] + Tagged(s[1..])
  }

  function SuffixEach(ms: seq<string>): (r: seq<string>)
    ensures |r| == |ms| && forall k :: 0 <= k < |ms| ==> r[k] == ms[k] + TwitterSuffix
    decreases |ms|
  {
    if ms == [] then [] else [ms[0] + TwitterSuffix] + SuffixEach(ms[1..])
  }

  lemma {:induction false} TokenLenNoSpacePrefix(a: string, b: string)
    requires NoSpace(a)
    ensures TokenLen(a + b) == |a| + TokenLen(b)
    decreases |a|
  {
    if a != [] {
      assert (a + b)[0] == a[0] && (a + b)[1..] == a[1..] + b;
      TokenLenNoSpacePrefix(a[1..], b);
    } else {
      assert a + b == b;
    }
  }

  lemma SuffixHasNoSpace()
    ensures NoSpace(TwitterSuffix)
  {
  }

  lemma NoSpaceAppend(a: string, b: string)
    requires NoSpace(a) && NoSpace(b)
    ensures NoSpace(a + b)
  {
    assert forall k :: 0 <= k < |a + b| ==> (a + b)[k] == if k < |a| then a[k] else b[k - |a|];
  }

  /** A text that does not start with `@` keeps its first character when tagged. */
  lemma TaggedHead(s: string)
    requires s != [] && s[0] != '@'
    ensures Tagged(s) != [] && Tagged(s)[0] == s[0]
  {
  }

  /** The first token of a tagged text that starts with a mention is the mention
      and the suffix; the rest is the tagged rest. */
  lemma TaggedFirstMention(s: string)
    requires s != [] && s[0] == '@'
    ensures var t, n := Tagged(s), MentionLen(s);
            t != [] && t[0] == '@' && MentionLen(t) == n + |TwitterSuffix| &&
            t[..MentionLen(t)] == s[..n] + TwitterSuffix && t[MentionLen(t)..] == Tagged(s[n..])
  {
    var n := MentionLen(s);
    var m, rest := s[..n], s[n..];
    var tr := Tagged(rest);
    var t := m + TwitterSuffix + tr;
    assert Tagged(s) == t;
    assert NoSpace(m[1..] + TwitterSuffix) by {
      assert m[1..] == s[1..][..n - 1];
      SuffixHasNoSpace();
      NoSpaceAppend(m[1..], TwitterSuffix);
    }
    assert t[1..] == (m[1..] + TwitterSuffix) + tr;
    TokenLenNoSpacePrefix(m[1..] + TwitterSuffix, tr);
    if rest != [] {
      assert rest[0] == s[1..][n - 1];
      TaggedHead(rest);
    }
  }

  /** The mentions of the tagged text are the mentions of the text, each with the
      suffix once: every mention is marked, and nothing else is. */
  lemma {:induction false} MentionsOfTagged(s: string)
    ensures Mentions(Tagged(s)) == SuffixEach(Mentions(s))
    decreases |s|
  {
    if s != [] {
      if s[0] == '@' {
        var n := MentionLen(s);
        MentionsOfTagged(s[n..]);
        TaggedFirstMention(s);
        assert SuffixEach([s[..n]] + Mentions(s[n..])) == [s[..n] + TwitterSuffix] + SuffixEach(Mentions(s[n..]));
      } else {
        MentionsOfTagged(s[1..]);
        var t := [s[0]] + Tagged(s[1..]);
        assert t[1..] == Tagged(s[1..]);
      }
    }
  }

  /** A text without mentions is left alone. */
  lemma {:induction false} TaggedWithoutMentions(s: string)
    requires Mentions(s) == []
    ensures Tagged(s) == s
    decreases |s|
  {
    if s != [] {
      TaggedWithoutMentions(s[1..]);
      assert s == [s[0]] + s[1..];
    }
  }

  /** The mention loop as written: every found mention, in order, is replaced
      everywhere by itself and the suffix. */
  function SuffixAllAsWritten(s: string, ms: seq<string>): string
    decreases |ms|
  {
    if ms == [] then s else SuffixAllAsWritten(ReplaceAll(s, ms[0], ms[0] + TwitterSuffix), ms[1..])
  }

  /** mtt/twitter_to_mastodon.py:87-90, the loop as the source runs it. */
  method SuffixMentionsAsWritten(s: string) returns (r: string)
    ensures r == SuffixAllAsWritten(s, Mentions(s))
  {
    var ms := Mentions(s);
    r := s;
    var i := 0;
    while i < |ms|
      invariant 0 <= i <= |ms|
      invariant SuffixAllAsWritten(r, ms[i..]) == SuffixAllAsWritten(s, ms)
    {
      assert ms[i..][1..] == ms[i + 1..];
      r := ReplaceAll(r, ms[i], ms[i] + TwitterSuffix);
      i := i + 1;
    }
  }

  /** A mention followed by a space and more text is found whole. */
  lemma MentionLenBeforeSpace(m: string, rest: string)
    requires |m| >= 1 && m[0] == '@' && NoSpace(m)
    requires rest == [] || IsSpace(rest[0])
    ensures MentionLen(m + rest) == |m|
    ensures (m + rest)[..|m|] == m && (m + rest)[|m|..] == rest
  {
    assert (m + rest)[1..] == m[1..] + rest;
    TokenLenNoSpacePrefix(m[1..], rest);
  }

  /** The text `m m` for a mention `m`. */
  function Twice(m: string): string {
    m + " " + m
  }

  /** A mention written twice is found twice... */
  lemma MentionsOfTwice(m: string)
    requires |m| >= 1 && m[0] == '@' && NoSpace(m)
    ensures Mentions(Twice(m)) == [m, m]
    ensures Tagged(Twice(m)) == m + TwitterSuffix + " " + m + TwitterSuffix
  {
    var s := Twice(m);
    var sm := " " + m;
    assert s == m + sm;
    MentionLenBeforeSpace(m, sm);
    assert m + "" == m;
    MentionLenBeforeSpace(m, "");
    assert sm[0] == ' ' && sm[1..] == m;
    assert Mentions(m) == [m] + Mentions([]);
    assert Mentions(sm) == Mentions(m);
    assert Mentions(s) == [m] + Mentions(sm);
    assert Tagged(m) == m + TwitterSuffix + Tagged([]);
    assert Tagged(sm) == " " + Tagged(m);
    assert Tagged(s) == m + TwitterSuffix + Tagged(sm);
  }

  /** The first pass of the loop as written suffixes both occurrences... */
  lemma FirstPassOfTwice(m: string, rep: string)
    requires |m| >= 1 && m[0] == '@'
    ensures ReplaceAll(Twice(m), m, rep) == rep + " " + rep
  {
    assert Twice(m) == m + (" " + m);
    ReplaceAllAtMatch(m, " " + m, rep);
    assert !OccursAt(" " + m, m, 0) by {
      assert (" " + m)[0..|m|][0] == ' ';
    }
    ReplaceAllNoMatchAt(" " + m, m, rep);
    assert (" " + m)[1..] == m + "";
    ReplaceAllAtMatch(m, "", rep);
    assert ReplaceAll("", m, rep) == "";
  }

  /** ... and the second pass suffixes the first occurrence again, when the
      suffix does not start with the mention. */
  lemma SecondPassOfTwice(m: string, x: string, rep: string)
    requires |m| >= 2 && m[0] == '@' && |x| >= 2 && m[1] != x[1] && rep == m + x
    ensures var r := ReplaceAll(rep + " " + rep, m, rep);
            |r| > |rep| && r[..|rep|] == rep && r[|rep|] == x[0]
  {
    var after := x + " " + rep;
    var tail := ReplaceAll(after[1..], m, rep);
    assert ReplaceAll(rep + " " + rep, m, rep) == rep + ReplaceAll(after, m, rep) by {
      assert rep + " " + rep == m + after;
      ReplaceAllAtMatch(m, after, rep);
    }
    assert ReplaceAll(after, m, rep) == [x[0]] + tail by {
      assert !OccursAt(after, m, 0) by {
        if |m| <= |after| {
          assert after[0..|m|][1] == x[1];
        }
      }
      ReplaceAllNoMatchAt(after, m, rep);
    }
    assert (rep + ([x[0]] + tail))[..|rep|] == rep;
  }

  /** ... so the loop as written suffixes a mention written twice twice: right
      after the first suffix comes the start of another, where the tagged text
      has the space.  It takes a mention whose second character differs from
      that of the suffix, `@a` for one. */
  lemma MentionTwiceSuffixedTwice(m: string)
    requires |m| >= 2 && m[0] == '@' && NoSpace(m) && m[1] != TwitterSuffix[1]
    ensures var r := SuffixAllAsWritten(Twice(m), Mentions(Twice(m)));
            |r| > |m| + |TwitterSuffix| &&
            r[..|m| + |TwitterSuffix|] == m + TwitterSuffix && r[|m| + |TwitterSuffix|] == '@'
    ensures var t := Tagged(Twice(m));
            |t| > |m| + |TwitterSuffix| && t[|m| + |TwitterSuffix|] == ' '
  {
    var x := TwitterSuffix;
    var rep := m + x;
    var once := rep + " " + rep;
    assert Mentions(Twice(m)) == [m, m] && Tagged(Twice(m)) == once by {
      MentionsOfTwice(m);
      assert m + x + " " + m + x == once;
    }
    assert SuffixAllAsWritten(Twice(m), [m, m]) == ReplaceAll(once, m, rep) by {
      FirstPassOfTwice(m, rep);
      assert [m, m][0] == m && [m, m][1..] == [m];
      assert SuffixAllAsWritten(once, [m]) == SuffixAllAsWritten(ReplaceAll(once, m, rep), []);
    }
    SecondPassOfTwice(m, x, rep);
    assert once[|rep|] == ' ';
  }

  // ---------------------------------------------------------------------------
  // Links and the content warning

  /** The short links replaced by their targets, one entity after the other
      (mtt/twitter_to_mastodon.py:92-95). */
  function Unshortened(s: string, urls: seq<UrlEntity>): string
    decreases |urls|
  {
    if urls == [] then s else Unshortened(ReplaceAll(s, urls[0].url, urls[0].expandedUrl), urls[1..])
  }

  /** The loop of mtt/twitter_to_mastodon.py:92-95. */
  method Unshorten(s: string, urls: seq<UrlEntity>) returns (r: string)
    ensures r == Unshortened(s, urls)
  {
    r := s;
    var i := 0;
    while i < |urls|
      invariant 0 <= i <= |urls|
      invariant Unshortened(r, urls[i..]) == Unshortened(s, urls)
    {
      assert urls[i..][1..] == urls[i + 1..];
      r := ReplaceAll(r, urls[i].url, urls[i].expandedUrl);
      i := i + 1;
    }
  }

  /** One link expanded: every occurrence of the short link, counted left to right,
      gives way to the expanded one. */
  lemma UnshortenedLength(s: string, u: UrlEntity)
    requires u.url != []
    ensures |Unshortened(s, [u])| == |s| + Occurrences(s, u.url) * (|u.expandedUrl| - |u.url|)
  {
    assert Unshortened(s, [u]) == ReplaceAll(s, u.url, u.expandedUrl);
    ReplaceAllLength(s, u.url, u.expandedUrl);
  }

  /** As written, mtt/twitter_to_mastodon.py:95 reads `url.url` and
      `url.expanded_url` on the URL entities of a stream item, which are dicts like
      the rest of the item: the first entity raises `AttributeError`, before the
      `try` of line 115, and the stream loop of `run` ends. `None` stands for that
      error. */
  function UnshortenedAsWritten(s: string, urls: seq<UrlEntity>): Option<string> {
    if urls == [] then Some(s) else None
  }

  /** As written, a tweet with a link stops the relay at the link loop; a tweet
      that is only a short link is, with the intended rewrite, its expanded link. */
  lemma LinkHaltsAsWritten(s: string, u: UrlEntity, urls: seq<UrlEntity>)
    requires u.url != []
    ensures UnshortenedAsWritten(s, [u] + urls) == None
    ensures Unshortened(u.url, [u]) == u.expandedUrl
  {
    assert u.url == u.url + "";
    ReplaceAllAtMatch(u.url, "", u.expandedUrl);
    assert ReplaceAll("", u.url, u.expandedUrl) == "";
    assert Unshortened(u.url, [u]) == ReplaceAll(u.url, u.url, u.expandedUrl);
  }

  /** A link absent from the text, or one that stands for itself, changes nothing. */
  lemma {:induction false} UnshortenedUnchanged(s: string, urls: seq<UrlEntity>)
    requires forall k :: 0 <= k < |urls| ==>
               urls[k].url != [] &&
               (urls[k].expandedUrl == urls[k].url || forall i: nat :: i <= |s| ==> !OccursAt(s, urls[k].url, i))
    ensures Unshortened(s, urls) == s
    decreases |urls|
  {
    if urls != [] {
      var u := urls[0];
      if u.expandedUrl == u.url {
        ReplaceAllSelf(s, u.url);
      } else {
        ReplaceAllAbsent(s, u.url, u.expandedUrl);
      }
      assert forall k :: 0 <= k < |urls[1..]| ==> urls[1..][k] == urls[k + 1];
      UnshortenedUnchanged(s, urls[1..]);
    }
  }

  /** The links of the media removed from the text (mtt/twitter_to_mastodon.py:104). */
  function WithoutLinks(s: string, media: seq<MediaEntity>): string
    decreases |media|
  {
    if media == [] then s else WithoutLinks(ReplaceAll(s, media[0].url, ""), media[1..])
  }

  /** Removing a link never makes the text longer: each occurrence takes the
      link's length off. */
  lemma {:induction false} WithoutLinksShorter(s: string, media: seq<MediaEntity>)
    requires forall k :: 0 <= k < |media| ==> media[k].url != []
    ensures |WithoutLinks(s, media)| <= |s|
    decreases |media|
  {
    if media != [] {
      var s1 := ReplaceAll(s, media[0].url, "");
      ReplaceAllLength(s, media[0].url, "");
      assert Occurrences(s, media[0].url) * (0 - |media[0].url|) <= 0;
      assert forall k :: 0 <= k < |media[1..]| ==> media[1..][k] == media[k + 1];
      WithoutLinksShorter(s1, media[1..]);
    }
  }

  /** `TWEET_CW_REGEXP`: its `findall` (the captured warnings, in order) and its
      `sub('', s, count)` (count 0 removes every match), both parameters. */
  datatype CwRegexp = CwRegexp(findall: string -> seq<string>, sub: (string, nat) -> string)

  /** `[cw.strip() for cw in cws]`. */
  function StripEach(cws: seq<string>): (r: seq<string>)
    ensures |r| == |cws| && forall k :: 0 <= k < |cws| ==> r[k] == Strip(cws[k])
    decreases |cws|
  {
    if cws == [] then [] else [Strip(cws[0])] + StripEach(cws[1..])
  }

  /** The warning of mtt/twitter_to_mastodon.py:97-98: `None` when nothing was
      found, else all the stripped captures joined by the separator, or only the
      first one stripped. */
  function Warning(cws: seq<string>, allowMulti: bool, separator: string): (w: Option<string>)
    ensures w.None? <==> cws == []
    ensures cws != [] && allowMulti ==> w == Some(JoinWith(StripEach(cws), separator))
    ensures cws != [] && !allowMulti ==> w == Some(Strip(cws[0]))
  {
    if cws == [] then None
    else if allowMulti then Some(JoinWith(StripEach(cws), separator))
    else Some(Strip(cws[0]))
  }

  /** With one warning found, both settings give the same warning. */
  lemma WarningSingle(cw: string, separator: string)
    ensures Warning([cw], true, separator) == Warning([cw], false, separator)
  {
    assert StripEach([cw]) == [Strip(cw)];
  }

  /** With several warnings allowed, every stripped capture is found in the
      warning at its offset, in order and one separator apart. */
  lemma WarningHoldsCaptures(cws: seq<string>, separator: string, k: nat)
    requires k < |cws|
    ensures var w, o := Warning(cws, true, separator).value, JoinOffset(StripEach(cws), separator, k);
            o + |Strip(cws[k])| <= |w| && w[o..o + |Strip(cws[k])|] == Strip(cws[k])
    ensures k + 1 < |cws| ==>
              JoinOffset(StripEach(cws), separator, k + 1) ==
              JoinOffset(StripEach(cws), separator, k) + |Strip(cws[k])| + |separator|
  {
    var ws := StripEach(cws);
    assert Warning(cws, true, separator).value == JoinWith(ws, separator);
    assert ws[k] == Strip(cws[k]);
    JoinWithAt(ws, separator, k);
  }

  /** The warning of the single setting starts the warning of the multi setting:
      allowing several warnings only adds the later ones. */
  lemma WarningMultiExtendsSingle(cws: seq<string>, separator: string)
    requires cws != []
    ensures var single, multi := Warning(cws, false, separator).value, Warning(cws, true, separator).value;
            |single| <= |multi| && multi[..|single|] == single
  {
    WarningHoldsCaptures(cws, separator, 0);
  }

  /** The warning is taken out of the text (mtt/twitter_to_mastodon.py:97-99):
      every match, or the first, removed, and the result stripped; the text is
      left alone when nothing was found. */
  function WithoutWarning(text: string, cws: seq<string>, re: CwRegexp, allowMulti: bool): (r: string)
    ensures cws == [] ==> r == text
    ensures cws != [] ==> r == Strip(re.sub(text, if allowMulti then 0 else 1))
  {
    if cws == [] then text else Strip(re.sub(text, if allowMulti then 0 else 1))
  }

  /** With a warning found, the toot text is what the substitution left, stripped:
      every non-space character is kept, none of the surrounding whitespace, and
      stripping it again changes nothing. */
  lemma WithoutWarningStripped(text: string, cws: seq<string>, re: CwRegexp, allowMulti: bool)
    requires cws != []
    ensures var r, sub := WithoutWarning(text, cws, re, allowMulti), re.sub(text, if allowMulti then 0 else 1);
            NonSpace(r) == NonSpace(sub) &&
            (r == [] <==> AllSpace(sub)) &&
            (r != [] ==> !IsSpace(r[0]) && !IsSpace(r[|r| - 1])) &&
            Strip(r) == r
  {
    var r := WithoutWarning(text, cws, re, allowMulti);
    StripProperties(re.sub(text, if allowMulti then 0 else 1));
    if r != [] {
      StripUnpadded(r);
    }
  }

  // ---------------------------------------------------------------------------
  // Posting

  /** The configuration values this direction reads (mtt/config.py). */
  datatype Config = Config(cwRegexp: Option<CwRegexp>, cwSeparator: string, cwAllowMulti: bool,
                           visibility: string, retries: nat)

  /** `html.unescape`, a parameter of the model. */
  type Unescape = string -> string

  /** `transfer_media(url, to='mastodon')`: the media id, or `None` when it raises. */
  type Uploader = string -> Option<Value>

  /** The arguments of `status_post`: `sensitive` is passed only with media, and a
      reply target (possibly `None`) only on the first try of an attempt. */
  datatype Request = Request(text: string, mediaIds: seq<Value>, sensitive: Option<bool>,
                             visibility: string, spoilerText: Option<string>, inReplyToId: Option<Value>)

  /** What `status_post` does: the new toot's id, a `MastodonAPIError`, another
      `MastodonError`, or any other exception. */
  datatype Answer = Ok(id: Value) | ApiError | OtherMastodonError | OtherException

  /** The server's answer to request `q` made in attempt `c`. */
  type Server = (nat, Request) -> Answer

  /** One attempt: the toot it posted and the request that posted it, a
      `MastodonError`, or another exception. */
  datatype Attempt = Done(id: Value, sent: Request) | Failed | Crash

  /** mtt/twitter_to_mastodon.py:122-161: the request, and after a `MastodonAPIError`
      the same request without reply target. */
  function TryOnce(post: Server, c: nat, q: Request): (a: Attempt)
    ensures a.Done? ==> a.sent == q || a.sent == q.(inReplyToId := None)
    ensures a.Done? && a.sent != q ==> post(c, q) == ApiError
  {
    match post(c, q)
    case Ok(id) => Done(id, q)
    case ApiError =>
      var q2 := q.(inReplyToId := None);
      (match post(c, q2)
       case Ok(id) => Done(id, q2)
       case OtherException => Crash
       case _ => Failed)
    case OtherMastodonError => Failed
    case OtherException => Crash
  }

  /** How the posting of a toot ends. */
  datatype Posting = Tooted(id: Value, sent: Request) | GaveUp | Unhandled

  /** The retries of mtt/twitter_to_mastodon.py:121-170 from attempt `counter` on:
      a failed attempt is retried while fewer than `retries` retries were made. */
  function Retry(post: Server, q: Request, counter: nat, retries: nat): Posting
    requires counter <= retries
    decreases retries - counter
  {
    match TryOnce(post, counter, q)
    case Done(id, sent) => Tooted(id, sent)
    case Crash => Unhandled
    case Failed => if counter < retries then Retry(post, q, counter + 1, retries) else GaveUp
  }

  /** The posting gives up only when every attempt up to `retries` retries failed
      with a `MastodonError`; otherwise it ends with the first attempt that did not. */
  lemma {:induction false} RetryOutcome(post: Server, q: Request, counter: nat, retries: nat)
    requires counter <= retries
    ensures Retry(post, q, counter, retries) == GaveUp ==>
              forall c :: counter <= c <= retries ==> TryOnce(post, c, q) == Failed
    ensures Retry(post, q, counter, retries) != GaveUp ==>
              exists c :: counter <= c <= retries && !TryOnce(post, c, q).Failed? &&
                          (forall d :: counter <= d < c ==> TryOnce(post, d, q) == Failed) &&
                          (TryOnce(post, c, q).Crash? <==> Retry(post, q, counter, retries) == Unhandled) &&
                          (TryOnce(post, c, q).Done? ==>
                             Retry(post, q, counter, retries) == Tooted(TryOnce(post, c, q).id, TryOnce(post, c, q).sent))
    decreases retries - counter
  {
    if TryOnce(post, counter, q) == Failed && counter < retries {
      RetryOutcome(post, q, counter + 1, retries);
      if Retry(post, q, counter, retries) != GaveUp {
        var c :| counter + 1 <= c <= retries && !TryOnce(post, c, q).Failed? &&
                 (forall d :: counter + 1 <= d < c ==> TryOnce(post, d, q) == Failed) &&
                 (TryOnce(post, c, q).Crash? <==> Retry(post, q, counter + 1, retries) == Unhandled) &&
                 (TryOnce(post, c, q).Done? ==>
                    Retry(post, q, counter + 1, retries) == Tooted(TryOnce(post, c, q).id, TryOnce(post, c, q).sent));
        assert forall d :: counter <= d < c ==> TryOnce(post, d, q) == Failed;
      }
    }
  }

  /** The `while not post_success` loop with its `retry_counter`. */
  method PostToot(post: Server, q: Request, retries: nat) returns (r: Posting)
    ensures r == Retry(post, q, 0, retries)
  {
    var counter := 0;
    var attempt := TryOnce(post, 0, q);
    while attempt.Failed? && counter < retries
      invariant counter <= retries
      invariant attempt == TryOnce(post, counter, q)
      invariant Retry(post, q, counter, retries) == Retry(post, q, 0, retries)
      decreases retries - counter
    {
      counter := counter + 1;
      attempt := TryOnce(post, counter, q);
    }
    match attempt
    case Done(id, sent) => r := Tooted(id, sent);
    case Crash => r := Unhandled;
    case Failed => r := GaveUp;
  }

  /** The media loop of mtt/twitter_to_mastodon.py:101-112: each link removed
      from the text and each media transferred, in order; a transfer that raises
      ends the loop (and, outside any `try`, the thread). */
  method TransferMedia(text: string, media: seq<MediaEntity>, upload: Uploader)
    returns (r: string, ids: seq<Value>, ok: bool)
    ensures ok <==> forall j :: 0 <= j < |media| ==> upload(MediaUrl(media[j])).Some?
    ensures ok ==> r == WithoutLinks(text, media) && |ids| == |media| &&
                   forall j :: 0 <= j < |media| ==> ids[j] == upload(MediaUrl(media[j])).value
  {
    r, ids, ok := text, [], true;
    var j := 0;
    while j < |media| && ok
      invariant 0 <= j <= |media|
      invariant ok ==> WithoutLinks(r, media[j..]) == WithoutLinks(text, media) && |ids| == j &&
                       forall i :: 0 <= i < j ==> upload(MediaUrl(media[i])).Some? && ids[i] == upload(MediaUrl(media[i])).value
      invariant !ok ==> 0 < j && upload(MediaUrl(media[j - 1])) == None
    {
      assert media[j..][1..] == media[j + 1..];
      r := ReplaceAll(r, media[j].url, "");
      var answer := upload(MediaUrl(media[j]));
      if answer.Some? {
        ids := ids + [answer.value];
      } else {
        ok := false;
      }
      j := j + 1;
    }
  }

  /** The whole rewriting of the text before the media links go
      (mtt/twitter_to_mastodon.py:81-99): unescaped, mentions marked, links
      expanded, the warning taken out. */
  function Rewritten(content: string, t: StreamItem, cfg: Config, unescape: Unescape): string {
    var cws := if cfg.cwRegexp.Some? then cfg.cwRegexp.value.findall(content) else [];
    var text := Unshortened(Tagged(unescape(content)), UrlsOf(t));
    if cfg.cwRegexp.Some? then WithoutWarning(text, cws, cfg.cwRegexp.value, cfg.cwAllowMulti) else text
  }

  /** The warning of the toot: found in the raw text, not the unescaped one. */
  function WarningOf(content: string, cfg: Config): Option<string> {
    if cfg.cwRegexp.Some? then Warning(cfg.cwRegexp.value.findall(content), cfg.cwAllowMulti, cfg.cwSeparator)
    else None
  }

  /** The request for a tweet: media ids and `sensitive` only when there are media. */
  function RequestFor(text: string, ids: seq<Value>, t: StreamItem, cfg: Config, warning: Option<string>,
                      replyTo: Value): (q: Request)
    ensures q.text == text && q.mediaIds == ids && q.inReplyToId == Some(replyTo)
    ensures q.sensitive == (if ids == [] then None else Some(SensitiveOf(t)))
  {
    Request(text, ids, if ids == [] then None else Some(SensitiveOf(t)), cfg.visibility, warning, Some(replyTo))
  }

  /** How a tweet ended. */
  datatype Handled = Ignored(why: Skip) | Halted | Tried(request: Request, posting: Posting)

  // ---------------------------------------------------------------------------
  // The publisher

  class MastodonPublisher {
    const ledger: Ledger
    const twAccountId: Value

    constructor (ledger: Ledger, twAccountId: Value)
      ensures this.ledger == ledger && this.twAccountId == twAccountId
    {
      this.ledger := ledger;
      this.twAccountId := twAccountId;
    }

    /** The body of the stream loop of `run` (mtt/twitter_to_mastodon.py:46-186) for
        one item: skipped, stopped by a failed media transfer, or posted with its
        retries; only a posted toot is associated with the tweet and marked as
        sent. */
    method OnTweet(t: StreamItem, cfg: Config, unescape: Unescape, upload: Uploader, post: Server)
      returns (result: Handled)
      modifies ledger
      ensures var s := old(ScreenTweet(t, twAccountId, ledger.sentTweets, ledger.t2m));
              (s.Ignore? ==> result == Ignored(s.why)) && (result.Ignored? ==> s.Ignore?)
      // the sent test, read with `is_tweet_sent_by_us`
      ensures result == Ignored(AlreadySent) <==>
                (t.text.Some? || t.fullText.Some?) && old(ledger.IsTweetSentByUs(t.id))
      ensures var s := old(ScreenTweet(t, twAccountId, ledger.sentTweets, ledger.t2m));
              s.Go? ==>
                (result.Halted? <==> exists j :: 0 <= j < |MediaOf(t)| && upload(MediaUrl(MediaOf(t)[j])) == None)
      ensures var s := old(ScreenTweet(t, twAccountId, ledger.sentTweets, ledger.t2m));
              result.Tried? ==>
                s.Go? &&
                result.request ==
                  RequestFor(WithoutLinks(Rewritten(s.content, t, cfg, unescape), MediaOf(t)),
                             result.request.mediaIds, t, cfg, WarningOf(s.content, cfg), s.replyTo) &&
                |result.request.mediaIds| == |MediaOf(t)| &&
                (forall j :: 0 <= j < |MediaOf(t)| ==>
                   result.request.mediaIds[j] == upload(MediaUrl(MediaOf(t)[j])).value) &&
                result.posting == Retry(post, result.request, 0, cfg.retries)
      // only a posted toot changes the shared state
      ensures result.Tried? && result.posting.Tooted? ==>
                Links(ledger.m2t, ledger.t2m) == Associate(old(Links(ledger.m2t, ledger.t2m)), result.posting.id, t.id) &&
                ledger.sentToots == old(ledger.sentToots) + [Str(ToStr(result.posting.id))] &&
                ledger.sentTweets == old(ledger.sentTweets)
      ensures !(result.Tried? && result.posting.Tooted?) ==>
                ledger.m2t == old(ledger.m2t) && ledger.t2m == old(ledger.t2m) &&
                ledger.sentToots == old(ledger.sentToots) && ledger.sentTweets == old(ledger.sentTweets)
      ensures old(ledger.Valid()) ==> ledger.Valid()
    {
      var s := ScreenTweet(t, twAccountId, ledger.sentTweets, ledger.t2m);
      if s.Ignore? {
        return Ignored(s.why);
      }
      var text := Rewritten(s.content, t, cfg, unescape);
      var warning := WarningOf(s.content, cfg);
      var ids, ok;
      text, ids, ok := TransferMedia(text, MediaOf(t), upload);
      if !ok {
        return Halted;
      }
      var q := RequestFor(text, ids, t, cfg, warning, s.replyTo);
      var posting := PostToot(post, q, cfg.retries);
      if posting.Tooted? {
        ledger.AssociateStatus(posting.id, t.id);
        ledger.MarkTootSent(posting.id);
      }
      result := Tried(q, posting);
    }
  }
}
