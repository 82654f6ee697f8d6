/** The Mastodon to Twitter direction (`TwitterPublisher`, mtt/mastodon_to_twitter.py):
    each toot from the user stream is screened, rewritten into tweet text, split
    into parts and posted as a reply chain, with a bounded retry per part. */
module MastodonToTwitter {
  import opened Python
  import opened Length
  import opened SharedState

  // ---------------------------------------------------------------------------
  // Toots and accounts

  /** The fields of a Mastodon account the relay reads. */
  datatype Account = Account(id: Value, url: string, username: string)

  /** A media attachment of a toot. */
  datatype Attachment = Attachment(url: string)

  /** The `reblog` entry of a toot dict: missing, `None`, or the boosted toot. */
  datatype ReblogField = NoReblogKey | NullReblog | Reblog(status: Toot)

  /** The fields of a toot the relay reads. */
  datatype Toot = Toot(id: Value, account: Account, visibility: string, content: string,
                       attachments: seq<Attachment>, reblogged: bool, reblog: ReblogField,
                       spoilerText: string, inReplyToId: Value, uri: string, url: string)

  /** `'TWEET_CW_PREFIX'.format(spoiler)` for a prefix holding one `{}`: the text
      before and after the placeholder. */
  datatype Template = Template(before: string, after: string)

  function Format(t: Template, x: string): string {
    t.before + x + t.after
  }

  /** The configuration values this direction reads (mtt/config.py). */
  datatype Config = Config(splitOnTwitter: bool, visibilities: set<string>,
                           cwPrefix: Option<Template>, retries: nat)

  /** The HTML-to-text pipeline of mtt/mastodon_to_twitter.py:120-130 (links to
      their target, line breaks, paragraphs, tag removal, `strip`, `html.unescape`,
      media links removed): a parameter of the model. */
  type Cleaner = string -> string

  /** `urlparse(url).netloc`, a parameter of the model. */
  type Netloc = string -> string

  // ---------------------------------------------------------------------------
  // Account identity

  /** `url.split('@')[0]`. */
  function BeforeAt(url: string): string {
    url[..FirstIndexOf(url, '@')]
  }

  /** `_are_same_accounts(first, other)` (mtt/mastodon_to_twitter.py:53-72): the
      same id, and the same profile URL up to the first `@` when both URLs have
      one, the same whole URL otherwise. */
  function SameAccounts(first: Account, other: Account): (r: bool)
    ensures first.id != other.id ==> !r
    ensures first.id == other.id && '@' in first.url && '@' in other.url ==>
              (r <==> BeforeAt(first.url) == BeforeAt(other.url))
    ensures first.id == other.id && !('@' in first.url && '@' in other.url) ==>
              (r <==> first.url == other.url)
  {
    if first.id != other.id then false
    else if '@' in first.url && '@' in other.url then BeforeAt(first.url) == BeforeAt(other.url)
    else first.url == other.url
  }

  lemma SameAccountsReflexive(a: Account)
    ensures SameAccounts(a, a)
  {
  }

  lemma SameAccountsSymmetric(a: Account, b: Account)
    ensures SameAccounts(a, b) == SameAccounts(b, a)
  {
  }

  /** The comparison is transitive. */
  lemma SameAccountsTransitive(a: Account, b: Account, c: Account)
    requires SameAccounts(a, b) && SameAccounts(b, c)
    ensures SameAccounts(a, c)
  {
  }

  // ---------------------------------------------------------------------------
  // Screening and rewriting one toot

  /** Why a toot is not relayed. */
  datatype Why = NotOurs | AlreadySent | BadVisibility | IsReply

  /** What the relay makes of a toot before posting anything: dropped, broken
      (a reblog flag with a `None` reblog, which raises), or a draft to tweet. */
  datatype Screening = Drop(why: Why) | Broken | Keep(draft: Draft)

  /** The text to tweet and what the posting needs: the id of the toot as received,
      and the attachments, reply target and link of the toot whose content is
      relayed (the boosted one for a reblog). */
  datatype Draft = Draft(tootId: Value, text: string, attachments: seq<Attachment>,
                         inReplyToId: Value, uri: string)

  /** The header that announces a reblog: `🔁 RT @user@instance`. */
  function RtHeader(reblog: Toot, netloc: Netloc): string {
    "\U{1F501} RT @" + reblog.account.username + "@" + netloc(reblog.account.url)
  }

  /** Whether the toot is a reblog the relay unwraps (mtt/mastodon_to_twitter.py:110). */
  predicate Unwraps(toot: Toot) {
    toot.reblogged && toot.reblog != NoReblogKey
  }

  /** The content to relay and the toot it comes from (mtt/mastodon_to_twitter.py:107-118). */
  function Source(toot: Toot, netloc: Netloc): (r: (string, Toot))
    requires !(Unwraps(toot) && toot.reblog == NullReblog)
    ensures !Unwraps(toot) ==> r == (toot.content, toot)
    ensures Unwraps(toot) ==>
              r.1 == toot.reblog.status &&
              r.0 == RtHeader(r.1, netloc) + "\n" + r.1.content + "\n\n" + r.1.url
  {
    if Unwraps(toot) then
      var b := toot.reblog.status;
      (RtHeader(b, netloc) + "\n" + b.content + "\n\n" + b.url, b)
    else (toot.content, toot)
  }

  /** The relayed text always ends with the content of the toot it comes from, or
      with its link: a plain toot is relayed as it is; a reblog relays the boosted
      toot, announced by the `RT` header naming its author, followed by its
      content and ending with its link. */
  lemma SourceOfToot(toot: Toot, netloc: Netloc)
    requires !(Unwraps(toot) && toot.reblog == NullReblog)
    ensures var (text, from) := Source(toot, netloc);
            from == (if Unwraps(toot) then toot.reblog.status else toot) &&
            (text == from.content <==> !Unwraps(toot))
    ensures var (text, from) := Source(toot, netloc);
            var head := "\U{1F501} RT @" + from.account.username + "@";
            var start := |RtHeader(from, netloc)| + 1;
            Unwraps(toot) ==>
              |head| <= |text| && text[..|head|] == head &&
              start + |from.content| + 2 + |from.url| == |text| &&
              text[start..start + |from.content|] == from.content &&
              text[|text| - |from.url|..] == from.url
  {
    if Unwraps(toot) {
      var b := toot.reblog.status;
      var h := RtHeader(b, netloc);
      var text := h + "\n" + b.content + "\n\n" + b.url;
      assert text[..|h| + 1] == h + "\n";
      assert text[|h| + 1..|h| + 1 + |b.content|] == b.content;
      assert text[|text| - |b.url|..] == b.url;
    }
  }

  /** `if TWEET_CW_PREFIX and spoiler_text: content = prefix.format(spoiler) + content`
      (mtt/mastodon_to_twitter.py:137-138). */
  function WithWarning(text: string, spoiler: string, prefix: Option<Template>): (r: string)
    ensures prefix.Some? && spoiler != "" ==> r == Format(prefix.value, spoiler) + text
    ensures !(prefix.Some? && spoiler != "") ==> r == text
  {
    if prefix.Some? && spoiler != "" then Format(prefix.value, spoiler) + text else text
  }

  /** The prefix goes before the text and never into it: the text ends the result,
      which differs from it exactly when a prefix is configured and the toot has a
      spoiler, and the spoiler then sits right after the prefix's opening part. */
  lemma WithWarningKeepsText(text: string, spoiler: string, prefix: Option<Template>)
    ensures var r := WithWarning(text, spoiler, prefix);
            |text| <= |r| && r[|r| - |text|..] == text &&
            (r != text <==> prefix.Some? && spoiler != "")
    ensures var r, n := WithWarning(text, spoiler, prefix), if prefix.Some? then |prefix.value.before| else 0;
            prefix.Some? && spoiler != "" ==> n + |spoiler| <= |r| && r[n..n + |spoiler|] == spoiler
  {
    if prefix.Some? && spoiler != "" {
      var r := Format(prefix.value, spoiler) + text;
      assert |r| > |text|;
      assert r[|r| - |text|..] == text;
      assert r[|prefix.value.before|..|prefix.value.before| + |spoiler|] == spoiler;
    }
  }

  /** The reply test on the cleaned text (mtt/mastodon_to_twitter.py:133). */
  predicate LooksLikeReply(text: string) {
    |text| != 0 && text[0] == '@'
  }

  /** The filter chain and rewriting of `on_update` (mtt/mastodon_to_twitter.py:86-138):
      a toot is dropped, in this order, when it is not from our account, when we
      sent it, when its visibility is not one to relay, and when its cleaned text
      starts with `@`; otherwise its text is the cleaned content, with the warning
      prefix when it has one. */
  function Screen(toot: Toot, account: Account, sentToots: seq<Value>, cfg: Config,
                  clean: Cleaner, netloc: Netloc): (s: Screening)
    ensures s == Drop(NotOurs) <==> !SameAccounts(account, toot.account)
    ensures s == Drop(AlreadySent) <==> SameAccounts(account, toot.account) && SentByUs(sentToots, toot.id)
    ensures s == Drop(BadVisibility) <==>
              SameAccounts(account, toot.account) && !SentByUs(sentToots, toot.id) &&
              toot.visibility !in cfg.visibilities
    ensures s.Broken? <==>
              SameAccounts(account, toot.account) && !SentByUs(sentToots, toot.id) &&
              toot.visibility in cfg.visibilities && Unwraps(toot) && toot.reblog == NullReblog
    ensures s == Drop(IsReply) || s.Keep? ==>
              SameAccounts(account, toot.account) && !SentByUs(sentToots, toot.id) &&
              toot.visibility in cfg.visibilities && !(Unwraps(toot) && toot.reblog == NullReblog)
    ensures s == Drop(IsReply) ==> LooksLikeReply(clean(Source(toot, netloc).0))
    ensures s.Keep? ==> s.draft.tootId == toot.id
    ensures s.Keep? ==>
              var (content, src) := Source(toot, netloc);
              !LooksLikeReply(clean(content)) &&
              s.draft == Draft(toot.id, WithWarning(clean(content), src.spoilerText, cfg.cwPrefix),
                               src.attachments, src.inReplyToId, src.uri)
  {
    if !SameAccounts(account, toot.account) then Drop(NotOurs)
    else if SentByUs(sentToots, toot.id) then Drop(AlreadySent)
    else if toot.visibility !in cfg.visibilities then Drop(BadVisibility)
    else if Unwraps(toot) && toot.reblog == NullReblog then Broken
    else
      var (content, src) := Source(toot, netloc);
      var cleaned := clean(content);
      if LooksLikeReply(cleaned) then Drop(IsReply)
      else Keep(Draft(toot.id, WithWarning(cleaned, src.spoilerText, cfg.cwPrefix),
                      src.attachments, src.inReplyToId, src.uri))
  }

  /** A reblog is tweeted under the wrapper's id, with the boosted toot's media,
      link and reply target and an `RT` header. */
  lemma ReblogDraft(toot: Toot, account: Account, sentToots: seq<Value>, cfg: Config,
                    clean: Cleaner, netloc: Netloc)
    requires Unwraps(toot) && toot.reblog.Reblog?
    requires Screen(toot, account, sentToots, cfg, clean, netloc).Keep?
    ensures var d := Screen(toot, account, sentToots, cfg, clean, netloc).draft;
            var b := toot.reblog.status;
            d.tootId == toot.id && d.attachments == b.attachments && d.uri == b.uri &&
            d.inReplyToId == b.inReplyToId &&
            d.text == WithWarning(clean(RtHeader(b, netloc) + "\n" + b.content + "\n\n" + b.url),
                                  b.spoilerText, cfg.cwPrefix)
  {
  }

  /** As written, mtt/twitter_to_mastodon.py:178 records a toot the relay posted
      under its raw int id, so when that toot comes back from the Mastodon stream
      the sent test of `on_update` does not drop it: it is screened as if new. */
  lemma EchoedTootNotDroppedAsWritten(toot: Toot, account: Account, sentToots: seq<Value>, cfg: Config,
                                      clean: Cleaner, netloc: Netloc, i: int)
    requires toot.id == Int(i) && SameAccounts(account, toot.account) && !SentByUs(sentToots, toot.id)
    ensures Screen(toot, account, sentToots + [toot.id], cfg, clean, netloc) != Drop(AlreadySent)
  {
    RawAppendMissedByStrLookup(sentToots, i);
  }

  /** Recorded with `mark_toot_sent` (mtt/utils.py:32-34), the same toot is
      dropped as already sent. */
  lemma EchoedTootDropped(toot: Toot, account: Account, sentToots: seq<Value>, cfg: Config,
                          clean: Cleaner, netloc: Netloc)
    requires SameAccounts(account, toot.account)
    ensures Screen(toot, account, sentToots + [Str(ToStr(toot.id))], cfg, clean, netloc) == Drop(AlreadySent)
  {
    assert Str(ToStr(toot.id)) == (sentToots + [Str(ToStr(toot.id))])[|sentToots|];
  }

  // ---------------------------------------------------------------------------
  // Posting with retries

  /** The answer of `PostUpdate`: the new tweet's id, a `TwitterError`, or any other
      exception. */
  datatype PostOutcome = Posted(id: Value) | TwitterError | OtherError

  /** The platform's answer to attempt `c` at posting part `k`. */
  type Platform = (nat, nat) -> PostOutcome

  /** `transfer_media(url, to='twitter')`: the uploaded media id, or `None` when
      the download or upload raises. */
  type Uploader = string -> Option<Value>

  /** The retry loop of mtt/mastodon_to_twitter.py:179-212 from attempt `counter`
      on: a `TwitterError` is retried while fewer than `retries` retries were made,
      and the first other answer ends the loop. */
  function Retry(post: Platform, k: nat, counter: nat, retries: nat): PostOutcome
    requires counter <= retries
    decreases retries - counter
  {
    match post(k, counter)
    case TwitterError =>
      if counter < retries then Retry(post, k, counter + 1, retries) else TwitterError
    case _ => post(k, counter)
  }

  /** The retries give up only after every attempt up to `retries` retries met a
      `TwitterError`; any other answer is the answer of the first attempt that did
      not meet one. */
  lemma {:induction false} RetryOutcome(post: Platform, k: nat, counter: nat, retries: nat)
    requires counter <= retries
    ensures Retry(post, k, counter, retries).TwitterError? ==>
              forall c :: counter <= c <= retries ==> post(k, c).TwitterError?
    ensures !Retry(post, k, counter, retries).TwitterError? ==>
              exists c :: counter <= c <= retries && post(k, c) == Retry(post, k, counter, retries) &&
                          forall d :: counter <= d < c ==> post(k, d).TwitterError?
    decreases retries - counter
  {
    if post(k, counter).TwitterError? && counter < retries {
      RetryOutcome(post, k, counter + 1, retries);
      var r := Retry(post, k, counter, retries);
      if !r.TwitterError? {
        var c :| counter + 1 <= c <= retries && post(k, c) == r &&
                 forall d :: counter + 1 <= d < c ==> post(k, d).TwitterError?;
        assert forall d :: counter <= d < c ==> post(k, d).TwitterError?;
      }
    } else if !post(k, counter).TwitterError? {
      assert post(k, counter) == Retry(post, k, counter, retries);
    }
  }

  /** The same loop as the source runs it, with its counter. */
  method PostPart(post: Platform, k: nat, retries: nat) returns (r: PostOutcome)
    ensures r == Retry(post, k, 0, retries)
  {
    var counter := 0;
    r := post(k, 0);
    while r.TwitterError? && counter < retries
      invariant counter <= retries
      invariant r == post(k, counter)
      invariant Retry(post, k, counter, retries) == Retry(post, k, 0, retries)
      decreases retries - counter
    {
      counter := counter + 1;
      r := post(k, counter);
    }
  }

  /** Uploading the attachments of the last part (mtt/mastodon_to_twitter.py:166-171):
      all of them in order, or a failure at the first that raises. */
  method UploadAll(attachments: seq<Attachment>, upload: Uploader) returns (ids: seq<Value>, ok: bool)
    ensures ok <==> forall j :: 0 <= j < |attachments| ==> upload(attachments[j].url).Some?
    ensures ok ==> |ids| == |attachments| &&
                   forall j :: 0 <= j < |attachments| ==> ids[j] == upload(attachments[j].url).value
  {
    ids := [];
    ok := true;
    var j := 0;
    while j < |attachments| && ok
      invariant 0 <= j <= |attachments|
      invariant ok ==> |ids| == j &&
                       forall i :: 0 <= i < j ==> upload(attachments[i].url).Some? && ids[i] == upload(attachments[i].url).value
      invariant !ok ==> 0 < j && upload(attachments[j - 1].url) == None
    {
      var answer := upload(attachments[j].url);
      if answer.Some? {
        ids := ids + [answer.value];
      } else {
        ok := false;
      }
      j := j + 1;
    }
  }

  /** A tweet as posted: its id, text, media and the tweet it replies to. */
  datatype Tweet = Tweet(id: Value, text: string, media: seq<Value>, replyTo: Value)

  /** The first part replies to the tweet mirroring the toot's parent, if known
      (mtt/mastodon_to_twitter.py:149-159). */
  function FirstReplyTo(m2t: map<Value, Value>, inReplyToId: Value): (r: Value)
    ensures inReplyToId in m2t ==> r == m2t[inReplyToId]
    ensures inReplyToId !in m2t ==> r == NoneValue
  {
    if inReplyToId in m2t then m2t[inReplyToId] else NoneValue
  }

  /** While the associations are inverse, the tweet the first part answers maps
      back to the toot being answered; and a reply to a toot the relay just
      mirrored answers the tweet it was associated with, the last of its chain. */
  lemma FirstReplyToRoundTrip(a: Links, inReplyToId: Value, toot: Value, tweet: Value)
    requires Inverse(a)
    ensures inReplyToId in a.m2t ==>
              FirstReplyTo(a.m2t, inReplyToId) in a.t2m && a.t2m[FirstReplyTo(a.m2t, inReplyToId)] == inReplyToId
    ensures inReplyToId !in a.m2t ==> FirstReplyTo(a.m2t, inReplyToId) == NoneValue
    ensures FirstReplyTo(Associate(a, toot, tweet).m2t, toot) == tweet
  {
  }

  /** The posted tweets form the reply chain of the parts: tweet `k` carries part
      `k` stripped, is what the retries of part `k` posted, replies to the tweet
      before it (the first to `first`), and carries media only if it is the last. */
  predicate Chained(posted: seq<Tweet>, parts: seq<string>, post: Platform, retries: nat, first: Value) {
    |posted| <= |parts| &&
    forall k :: 0 <= k < |posted| ==> InChain(posted, k, parts, post, retries, first)
  }

  /** Tweet `k` of the chain: it carries part `k` stripped, is what the retries
      of part `k` posted, replies to the tweet before it (the first to `first`),
      and carries media only if it is the last part. */
  predicate InChain(posted: seq<Tweet>, k: nat, parts: seq<string>, post: Platform, retries: nat, first: Value)
    requires k < |posted| <= |parts|
  {
    PostedPart(posted[k], k, parts, post, retries) &&
    posted[k].replyTo == (if k == 0 then first else posted[k - 1].id) &&
    (k < |parts| - 1 ==> posted[k].media == [])
  }

  /** Tweet `t` carries part `k` stripped and is what the retries of part `k` posted. */
  predicate PostedPart(t: Tweet, k: nat, parts: seq<string>, post: Platform, retries: nat)
    requires k < |parts|
  {
    t.text == Strip(parts[k]) && Retry(post, k, 0, retries) == Posted(t.id)
  }

  /** Appending the tweet posted for the next part keeps the chain. */
  lemma ChainedExtend(posted: seq<Tweet>, parts: seq<string>, post: Platform, retries: nat, first: Value, t: Tweet)
    requires Chained(posted, parts, post, retries, first) && |posted| < |parts|
    requires PostedPart(t, |posted|, parts, post, retries)
    requires t.replyTo == (if |posted| == 0 then first else posted[|posted| - 1].id)
    requires |posted| < |parts| - 1 ==> t.media == []
    ensures Chained(posted + [t], parts, post, retries, first)
  {
    var ext := posted + [t];
    forall k | 0 <= k < |ext|
      ensures InChain(ext, k, parts, post, retries, first)
    {
      InChainExtend(posted, k, parts, post, retries, first, t);
    }
  }

  lemma InChainExtend(posted: seq<Tweet>, k: nat, parts: seq<string>, post: Platform, retries: nat, first: Value, t: Tweet)
    requires Chained(posted, parts, post, retries, first) && |posted| < |parts| && k <= |posted|
    requires PostedPart(t, |posted|, parts, post, retries)
    requires t.replyTo == (if |posted| == 0 then first else posted[|posted| - 1].id)
    requires |posted| < |parts| - 1 ==> t.media == []
    ensures InChain(posted + [t], k, parts, post, retries, first)
  {
    var ext := posted + [t];
    if k < |posted| {
      assert InChain(posted, k, parts, post, retries, first);
      assert ext[k] == posted[k];
      if k > 0 {
        assert ext[k - 1] == posted[k - 1];
      }
    } else {
      assert ext[k] == t;
      if k > 0 {
        assert ext[k - 1] == posted[k - 1];
      }
    }
  }

  /** The last tweet of a complete chain carries the uploaded media, in order. */
  predicate MediaOnLast(posted: seq<Tweet>, parts: seq<string>, attachments: seq<Attachment>, upload: Uploader) {
    |posted| == |parts| && |parts| > 0 ==>
      |posted[|parts| - 1].media| == |attachments| &&
      forall j :: 0 <= j < |attachments| ==>
        upload(attachments[j].url).Some? && posted[|parts| - 1].media[j] == upload(attachments[j].url).value
  }

  /** Why part `k` was not posted: its retries did not end in a tweet, or it is the
      last part and an upload failed. */
  predicate StoppedAt(k: nat, parts: seq<string>, attachments: seq<Attachment>, post: Platform,
                      upload: Uploader, retries: nat) {
    !Retry(post, k, 0, retries).Posted? ||
    (k == |parts| - 1 && exists j :: 0 <= j < |attachments| && upload(attachments[j].url) == None)
  }

  /** The sent list grew by the marks of the posted tweets, in order. */
  predicate Marked(sent: seq<Value>, sent0: seq<Value>, posted: seq<Tweet>) {
    |sent| == |sent0| + |posted| && sent[..|sent0|] == sent0 &&
    forall k :: 0 <= k < |posted| ==> sent[|sent0| + k] == Str(ToStr(posted[k].id))
  }

  lemma MarkedExtend(sent: seq<Value>, sent0: seq<Value>, posted: seq<Tweet>, t: Tweet)
    requires Marked(sent, sent0, posted)
    ensures Marked(sent + [Str(ToStr(t.id))], sent0, posted + [t])
  {
    assert (sent + [Str(ToStr(t.id))])[..|sent0|] == sent[..|sent0|];
  }

  lemma MarkedNothing(sent: seq<Value>)
    ensures Marked(sent, sent, [])
  {
    assert sent[..|sent|] == sent;
  }

  /** How a toot ended. */
  datatype Handled = Skipped(why: Why) | Crashed | Relayed(parts: seq<string>, posted: seq<Tweet>, complete: bool)

  // ---------------------------------------------------------------------------
  // The publisher

  class TwitterPublisher {
    const ledger: Ledger
    const account: Account
    var urlLength: int
    var lastUrlLenUpdate: real

    /** mtt/mastodon_to_twitter.py:13-32: our account, fetched from Mastodon, and
        the default short-link length. */
    constructor (ledger: Ledger, account: Account)
      ensures this.ledger == ledger && this.account == account
      ensures urlLength == 24 && lastUrlLenUpdate == 0.0
    {
      this.ledger := ledger;
      this.account := account;
      urlLength := 24;
      lastUrlLenUpdate := 0.0;
    }

    /** `is_from_us` (mtt/mastodon_to_twitter.py:74-75): only an account with our
        id can be ours, and the test does not depend on which side is ours. */
    predicate IsFromUs(other: Account): (r: bool)
      ensures r ==> other.id == account.id
      ensures r == SameAccounts(other, account)
    {
      SameAccounts(account, other)
    }

    /** `update_twitter_link_length` (mtt/mastodon_to_twitter.py:45-51): once a day
        the short-link length becomes one more than the longer of Twitter's two
        short-link lengths.  `now` is `time.time()`. */
    method UpdateTwitterLinkLength(now: real, shortHttp: int, shortHttps: int)
      modifies this
      ensures now - old(lastUrlLenUpdate) > 86400.0 ==>
                urlLength == Max(shortHttp, shortHttps) + 1 && lastUrlLenUpdate == now
      ensures !(now - old(lastUrlLenUpdate) > 86400.0) ==>
                urlLength == old(urlLength) && lastUrlLenUpdate == old(lastUrlLenUpdate)
    {
      if now - lastUrlLenUpdate > 86400.0 {
        urlLength := Max(shortHttp, shortHttps) + 1;
        lastUrlLenUpdate := now;
      }
    }

    /** Tweeting the parts of one toot (mtt/mastodon_to_twitter.py:147-225): each
        part replies to the previous one, media go on the last part only, every
        posted tweet is marked as sent, and the toot is associated with the last
        tweet once that one is posted.  A part whose retries run out, any other
        error and a failed upload stop the thread there; what was posted stays. */
    method PostChain(tootId: Value, parts: seq<string>, attachments: seq<Attachment>,
                     inReplyToId: Value, post: Platform, upload: Uploader, retries: nat)
      returns (posted: seq<Tweet>, complete: bool)
      modifies ledger
      ensures Chained(posted, parts, post, retries, FirstReplyTo(old(ledger.m2t), inReplyToId))
      ensures complete <==> |posted| == |parts|
      ensures MediaOnLast(posted, parts, attachments, upload)
      ensures !complete ==> StoppedAt(|posted|, parts, attachments, post, upload, retries)
      ensures Marked(ledger.sentTweets, old(ledger.sentTweets), posted)
      ensures ledger.sentToots == old(ledger.sentToots)
      // only a complete thread is associated, with its last tweet
      ensures complete && |parts| > 0 ==>
                Links(ledger.m2t, ledger.t2m) == Associate(old(Links(ledger.m2t, ledger.t2m)), tootId, posted[|parts| - 1].id)
      ensures !(complete && |parts| > 0) ==> ledger.m2t == old(ledger.m2t) && ledger.t2m == old(ledger.t2m)
      ensures old(ledger.Valid()) ==> ledger.Valid()
    {
      var replyTo := FirstReplyTo(ledger.m2t, inReplyToId);
      ghost var first := replyTo;
      ghost var sent0 := ledger.sentTweets;
      ghost var links0 := Links(ledger.m2t, ledger.t2m);
      posted := [];
      MarkedNothing(sent0);
      var failed := false;
      while |posted| < |parts| && !failed
        invariant Chained(posted, parts, post, retries, first)
        invariant MediaOnLast(posted, parts, attachments, upload)
        invariant |posted| > 0 ==> replyTo == posted[|posted| - 1].id
        invariant |posted| == 0 ==> replyTo == first
        invariant failed ==> |posted| < |parts| && StoppedAt(|posted|, parts, attachments, post, upload, retries)
        invariant Marked(ledger.sentTweets, sent0, posted)
        invariant ledger.sentToots == old(ledger.sentToots)
        invariant |posted| == |parts| && |parts| > 0 ==>
                    Links(ledger.m2t, ledger.t2m) == Associate(links0, tootId, posted[|parts| - 1].id)
        invariant !(|posted| == |parts| && |parts| > 0) ==> Links(ledger.m2t, ledger.t2m) == links0
        invariant old(ledger.Valid()) ==> ledger.Valid()
        decreases |parts| - |posted|, if failed then 0 else 1
      {
        var k := |posted|;
        var last := k == |parts| - 1;
        var media: seq<Value> := [];
        var uploaded := true;
        if last {
          media, uploaded := UploadAll(attachments, upload);
        }
        if !uploaded {
          failed := true;
        } else {
          var text := Strip(parts[k]);
          var outcome := PostPart(post, k, retries);
          if outcome.Posted? {
            var t := Tweet(outcome.id, text, media, replyTo);
            ChainedExtend(posted, parts, post, retries, first, t);
            MarkedExtend(ledger.sentTweets, sent0, posted, t);
            ledger.MarkTweetSent(outcome.id);
            posted := posted + [t];
            replyTo := outcome.id;
            if last {
              ledger.AssociateStatus(tootId, outcome.id);
            }
          } else {
            failed := true;
          }
        }
      }
      complete := !failed;
    }

    /** The posting half of `on_update` (mtt/mastodon_to_twitter.py:140-228) for a
        draft: `split_status(content, 280, SPLIT_ON_TWITTER, toot['uri'])` with the
        default short-link length, the reply chain, and the daily refresh of the
        short-link length. */
    method RelayDraft(d: Draft, cfg: Config, urls: UrlMatcher, isUrl: UrlTest, post: Platform,
                      upload: Uploader, now: real, shortHttp: int, shortHttps: int)
      returns (parts: seq<string>, posted: seq<Tweet>, complete: bool)
      modifies this, ledger
      ensures |parts| >= 1
      ensures !cfg.splitOnTwitter ==> |parts| == 1
      ensures EffectiveLength(d.text, 24, urls) <= 274 ==> parts == [d.text]
      ensures Chained(posted, parts, post, cfg.retries, FirstReplyTo(old(ledger.m2t), d.inReplyToId))
      ensures complete <==> |posted| == |parts|
      ensures MediaOnLast(posted, parts, d.attachments, upload)
      ensures !complete ==> StoppedAt(|posted|, parts, d.attachments, post, upload, cfg.retries)
      ensures Marked(ledger.sentTweets, old(ledger.sentTweets), posted)
      ensures ledger.sentToots == old(ledger.sentToots)
      ensures complete ==>
                Links(ledger.m2t, ledger.t2m) == Associate(old(Links(ledger.m2t, ledger.t2m)), d.tootId, posted[|parts| - 1].id)
      ensures !complete ==> ledger.m2t == old(ledger.m2t) && ledger.t2m == old(ledger.t2m)
      ensures now - old(lastUrlLenUpdate) > 86400.0 ==>
                urlLength == Max(shortHttp, shortHttps) + 1 && lastUrlLenUpdate == now
      ensures !(now - old(lastUrlLenUpdate) > 86400.0) ==>
                urlLength == old(urlLength) && lastUrlLenUpdate == old(lastUrlLenUpdate)
      ensures old(ledger.Valid()) ==> ledger.Valid()
    {
      ghost var pieces;
      parts, pieces := SplitStatus(d.text, 280, cfg.splitOnTwitter, d.uri, None, urls, isUrl);
      posted, complete := PostChain(d.tootId, parts, d.attachments, d.inReplyToId, post, upload, cfg.retries);
      UpdateTwitterLinkLength(now, shortHttp, shortHttps);
    }

    /** `on_update` (mtt/mastodon_to_twitter.py:86-228): the screening, then the
        posting of the draft.  The short-link length is refreshed whenever a toot
        got as far as being split. */
    method OnUpdate(toot: Toot, cfg: Config, clean: Cleaner, netloc: Netloc, urls: UrlMatcher,
                    isUrl: UrlTest, post: Platform, upload: Uploader,
                    now: real, shortHttp: int, shortHttps: int)
      returns (result: Handled)
      modifies this, ledger
      ensures var s := old(Screen(toot, account, ledger.sentToots, cfg, clean, netloc));
              (s.Drop? ==> result == Skipped(s.why)) && (result.Skipped? ==> s.Drop?) &&
              (s.Broken? <==> result.Crashed?) && (s.Keep? <==> result.Relayed?)
      // the first two filters are `is_from_us` and `is_toot_sent_by_us`
      ensures result == Skipped(NotOurs) <==> !IsFromUs(toot.account)
      ensures result == Skipped(AlreadySent) <==> IsFromUs(toot.account) && old(ledger.IsTootSentByUs(toot.id))
      // nothing changes for a toot that is not relayed
      ensures !result.Relayed? ==>
                ledger.m2t == old(ledger.m2t) && ledger.t2m == old(ledger.t2m) &&
                ledger.sentToots == old(ledger.sentToots) && ledger.sentTweets == old(ledger.sentTweets) &&
                urlLength == old(urlLength) && lastUrlLenUpdate == old(lastUrlLenUpdate)
      // a relayed toot: its parts and the thread posted for them
      ensures result.Relayed? ==>
                var d := old(Screen(toot, account, ledger.sentToots, cfg, clean, netloc)).draft;
                |result.parts| >= 1 &&
                (!cfg.splitOnTwitter ==> |result.parts| == 1) &&
                (EffectiveLength(d.text, 24, urls) <= 274 ==> result.parts == [d.text]) &&
                Chained(result.posted, result.parts, post, cfg.retries, FirstReplyTo(old(ledger.m2t), d.inReplyToId)) &&
                (result.complete <==> |result.posted| == |result.parts|) &&
                MediaOnLast(result.posted, result.parts, d.attachments, upload) &&
                (!result.complete ==> StoppedAt(|result.posted|, result.parts, d.attachments, post, upload, cfg.retries)) &&
                Marked(ledger.sentTweets, old(ledger.sentTweets), result.posted) &&
                ledger.sentToots == old(ledger.sentToots)
      ensures result.Relayed? && result.complete ==>
                Links(ledger.m2t, ledger.t2m) ==
                Associate(old(Links(ledger.m2t, ledger.t2m)), toot.id, result.posted[|result.parts| - 1].id)
      ensures result.Relayed? && !result.complete ==> ledger.m2t == old(ledger.m2t) && ledger.t2m == old(ledger.t2m)
      ensures result.Relayed? && now - old(lastUrlLenUpdate) > 86400.0 ==>
                urlLength == Max(shortHttp, shortHttps) + 1 && lastUrlLenUpdate == now
      ensures result.Relayed? && !(now - old(lastUrlLenUpdate) > 86400.0) ==>
                urlLength == old(urlLength) && lastUrlLenUpdate == old(lastUrlLenUpdate)
      ensures old(ledger.Valid()) ==> ledger.Valid()
    {
      var s := Screen(toot, account, ledger.sentToots, cfg, clean, netloc);
      match s {
        case Drop(why) =>
          result := Skipped(why);
        case Broken =>
          result := Crashed;
        case Keep(d) =>
          var parts, posted, complete := RelayDraft(d, cfg, urls, isUrl, post, upload, now, shortHttp, shortHttps);
          result := Relayed(parts, posted, complete);
      }
    }
  }
}
