/** The older single-script relay (MastodonToTwitter.py:39-46, 188-289): it polls
    our own toots, and tweets each new one oldest first, split by fixed numbers
    (a status over 140 characters is wrapped at 135) into a reply chain whose
    parts but the last end in ` --`.  Any error gives the toot up. */
module LegacyRelay {
  import opened Python
  import opened Length

  /** `calc_expected_status_length(status)` with the script's default of 23. */
  function LegacyLength(status: string, urls: UrlMatcher): (n: int)
    ensures urls(status) == [] ==> n == |status|
  {
    EffectiveLength(status, 23, urls)
  }

  /** The parts of a cleaned toot (MastodonToTwitter.py:213-245): the text as it is
      when its effective length is at most 140, else the greedy wrap at 135. */
  method SplitToot(content: string, urls: UrlMatcher, isUrl: UrlTest) returns (parts: seq<string>)
    ensures |parts| >= 1
    ensures LegacyLength(content, urls) <= 140 ==> parts == [content]
    ensures NonSpace(Concat(parts)) == NonSpace(content)
  {
    if LegacyLength(content, urls) > 140 {
      var words := SplitOnSpace(content);
      JoinSplitOnSpace(content);
      parts := SplitWords(words, 135, 135, 135, 23, urls, isUrl);
      NonSpaceJoinWithSpace(words);
    } else {
      parts := [content];
      ConcatSingle(content);
    }
  }

  /** A toot as the script reads it: its id, HTML content and attachment URLs. */
  datatype LegacyToot = LegacyToot(id: Value, content: string, attachments: seq<string>)

  /** A tweet as posted: its id, text, media and the tweet it replies to. */
  datatype Tweet = Tweet(id: Value, text: string, media: seq<Value>, replyTo: Value)

  /** `PostUpdate` for part `k`: the new tweet's id, or `None` when it raises. */
  type Poster = nat -> Option<Value>

  /** Uploading an attachment: the media id, or `None` when any step raises. */
  type Uploader = string -> Option<Value>

  /** The text of part `k` of `n`: ` --` after every part but the last. */
  function PartText(parts: seq<string>, k: nat): string
    requires k < |parts|
  {
    if k == |parts| - 1 then parts[k] else parts[k] + " --"
  }

  /** Tweet `k` of the thread: it carries part `k`'s text, is what posting part
      `k` returned, replies to the tweet before it (the first to nothing), and
      has media only if it is the last. */
  predicate Threaded(posted: seq<Tweet>, k: nat, parts: seq<string>, post: Poster)
    requires k < |posted| <= |parts|
  {
    posted[k].text == PartText(parts, k) && post(k) == Some(posted[k].id) &&
    posted[k].replyTo == (if k == 0 then NoneValue else posted[k - 1].id) &&
    (k < |parts| - 1 ==> posted[k].media == [])
  }

  predicate Thread(posted: seq<Tweet>, parts: seq<string>, post: Poster) {
    |posted| <= |parts| && forall k :: 0 <= k < |posted| ==> Threaded(posted, k, parts, post)
  }

  lemma ThreadedExtend(posted: seq<Tweet>, k: nat, parts: seq<string>, post: Poster, t: Tweet)
    requires Thread(posted, parts, post) && |posted| < |parts| && k <= |posted|
    requires t.text == PartText(parts, |posted|) && post(|posted|) == Some(t.id)
    requires t.replyTo == (if |posted| == 0 then NoneValue else posted[|posted| - 1].id)
    requires |posted| < |parts| - 1 ==> t.media == []
    ensures Threaded(posted + [t], k, parts, post)
  {
    var ext := posted + [t];
    if k < |posted| {
      assert Threaded(posted, k, parts, post);
      assert ext[k] == posted[k];
    } else {
      assert ext[k] == t;
    }
    if 0 < k {
      assert ext[k - 1] == posted[k - 1];
    }
  }

  /** Appending the tweet of the next part keeps the thread. */
  lemma ThreadExtend(posted: seq<Tweet>, parts: seq<string>, post: Poster, t: Tweet)
    requires Thread(posted, parts, post) && |posted| < |parts|
    requires t.text == PartText(parts, |posted|) && post(|posted|) == Some(t.id)
    requires t.replyTo == (if |posted| == 0 then NoneValue else posted[|posted| - 1].id)
    requires |posted| < |parts| - 1 ==> t.media == []
    ensures Thread(posted + [t], parts, post)
  {
    forall k | 0 <= k < |posted + [t]|
      ensures Threaded(posted + [t], k, parts, post)
    {
      ThreadedExtend(posted, k, parts, post, t);
    }
  }

  /** Every attachment uploads. */
  predicate AllUploaded(attachments: seq<string>, upload: Uploader) {
    forall j :: 0 <= j < |attachments| ==> upload(attachments[j]).Some?
  }

  /** The last tweet of a complete thread carries the uploaded media, in order. */
  predicate MediaOnLast(posted: seq<Tweet>, parts: seq<string>, attachments: seq<string>, upload: Uploader) {
    |posted| == |parts| && |parts| > 0 ==>
      AllUploaded(attachments, upload) && |posted[|parts| - 1].media| == |attachments| &&
      forall j :: 0 <= j < |attachments| ==> posted[|parts| - 1].media[j] == upload(attachments[j]).value
  }

  /** Why the thread stopped at part `k`: posting it raised, or it is the last
      part and an upload raised (the bare `except` catches both). */
  predicate StoppedAt(k: nat, parts: seq<string>, attachments: seq<string>, post: Poster, upload: Uploader) {
    (k == |parts| - 1 && !AllUploaded(attachments, upload)) || post(k).None?
  }

  /** The uploads of the last part (MastodonToTwitter.py:256-274), all in order or
      a failure at the first that raises. */
  method UploadAll(attachments: seq<string>, upload: Uploader) returns (ids: seq<Value>, ok: bool)
    ensures ok <==> AllUploaded(attachments, upload)
    ensures ok ==> |ids| == |attachments| &&
                   forall j :: 0 <= j < |attachments| ==> ids[j] == upload(attachments[j]).value
  {
    ids, ok := [], true;
    var j := 0;
    while j < |attachments| && ok
      invariant 0 <= j <= |attachments|
      invariant ok ==> |ids| == j &&
                       forall i :: 0 <= i < j ==> upload(attachments[i]).Some? && ids[i] == upload(attachments[i]).value
      invariant !ok ==> 0 < j && upload(attachments[j - 1]).None?
    {
      var answer := upload(attachments[j]);
      if answer.Some? {
        ids := ids + [answer.value];
      } else {
        ok := false;
      }
      j := j + 1;
    }
  }

  /** Tweeting the parts (MastodonToTwitter.py:248-286): a chain of replies
      starting from no reply, ` --` on all parts but the last, media on the last
      only; the first error stops the toot, and what was posted stays. */
  method PostThread(parts: seq<string>, attachments: seq<string>, post: Poster, upload: Uploader)
    returns (posted: seq<Tweet>, complete: bool)
    ensures Thread(posted, parts, post)
    ensures complete <==> |posted| == |parts|
    ensures MediaOnLast(posted, parts, attachments, upload)
    ensures !complete ==> StoppedAt(|posted|, parts, attachments, post, upload)
  {
    posted := [];
    var replyTo := NoneValue;
    var failed := false;
    while |posted| < |parts| && !failed
      invariant Thread(posted, parts, post)
      invariant MediaOnLast(posted, parts, attachments, upload)
      invariant replyTo == if |posted| == 0 then NoneValue else posted[|posted| - 1].id
      invariant failed ==> |posted| < |parts| && StoppedAt(|posted|, parts, attachments, post, upload)
      decreases |parts| - |posted|, if failed then 0 else 1
    {
      var i := |posted|;
      var media: seq<Value> := [];
      var text := parts[i] + " --";
      var uploaded := true;
      if i == |parts| - 1 {
        media, uploaded := UploadAll(attachments, upload);
        text := parts[i];
      }
      if !uploaded {
        failed := true;
      } else {
        var answer := post(i);
        if answer.Some? {
          var t := Tweet(answer.value, text, media, replyTo);
          ThreadExtend(posted, parts, post, t);
          posted := posted + [t];
          replyTo := answer.value;
        } else {
          failed := true;
        }
      }
    }
    complete := !failed;
  }

  /** How a toot ended. */
  datatype Outcome = SkippedReply | Relayed(parts: seq<string>, posted: seq<Tweet>, complete: bool)

  /** The cleaning of MastodonToTwitter.py:200-205 (links to their target, tags
      removed, `strip`, `html.unescape`, media links removed): a parameter. */
  type Cleaner = string -> string

  /** The reply test on the cleaned text (MastodonToTwitter.py:208). */
  predicate LooksLikeReply(text: string) {
    |text| != 0 && text[0] == '@'
  }

  /** What the script promises about one toot: a reply is skipped, anything else is
      split and tweeted as a thread whose parts keep every non-space character. */
  predicate TootHandled(toot: LegacyToot, r: Outcome, clean: Cleaner, urls: UrlMatcher,
                        post: Poster, upload: Uploader) {
    var text := clean(toot.content);
    (r.SkippedReply? <==> LooksLikeReply(text)) &&
    (r.Relayed? ==>
       |r.parts| >= 1 && NonSpace(Concat(r.parts)) == NonSpace(text) &&
       (LegacyLength(text, urls) <= 140 ==> r.parts == [text]) &&
       Thread(r.posted, r.parts, post) && (r.complete <==> |r.posted| == |r.parts|) &&
       MediaOnLast(r.posted, r.parts, toot.attachments, upload) &&
       (!r.complete ==> StoppedAt(|r.posted|, r.parts, toot.attachments, post, upload)))
  }

  /** One toot of the loop body (MastodonToTwitter.py:197-286). */
  method HandleToot(toot: LegacyToot, clean: Cleaner, urls: UrlMatcher, isUrl: UrlTest,
                    post: Poster, upload: Uploader) returns (r: Outcome)
    ensures TootHandled(toot, r, clean, urls, post, upload)
  {
    var text := clean(toot.content);
    if LooksLikeReply(text) {
      return SkippedReply;
    }
    var parts := SplitToot(text, urls, isUrl);
    var posted, complete := PostThread(parts, toot.attachments, post, upload);
    r := Relayed(parts, posted, complete);
  }

  /** `list.reverse()`, on values. */
  function Reversed<T>(s: seq<T>): (r: seq<T>)
    ensures |r| == |s| && forall i :: 0 <= i < |s| ==> r[i] == s[|s| - 1 - i]
    decreases |s|
  {
    if s == [] then [] else Reversed(s[1..]) + [s[0]]
  }

  /** Reversing twice gives the list back. */
  lemma ReversedTwice<T>(s: seq<T>)
    ensures Reversed(Reversed(s)) == s
  {
  }

  /** The polling state of the script: the newest toot seen. */
  class Poller {
    var sinceTootId: Value

    constructor (sinceTootId: Value)
      ensures this.sinceTootId == sinceTootId
    {
      this.sinceTootId := sinceTootId;
    }

    /** One round of the polling loop (MastodonToTwitter.py:190-196): the newest
        fetched toot (Mastodon lists newest first) becomes the watermark, and the
        toots are handled oldest first.  `post(i)` and `upload(i)` answer for the
        `i`-th toot handled. */
    method Poll(fetched: seq<LegacyToot>, clean: Cleaner, urls: UrlMatcher, isUrl: UrlTest,
                post: nat -> Poster, upload: nat -> Uploader) returns (results: seq<Outcome>)
      modifies this
      ensures fetched != [] ==> sinceTootId == fetched[0].id
      ensures fetched == [] ==> sinceTootId == old(sinceTootId)
      ensures |results| == |fetched|
      ensures forall i :: 0 <= i < |fetched| ==>
                TootHandled(fetched[|fetched| - 1 - i], results[i], clean, urls, post(i), upload(i))
    {
      results := [];
      if fetched == [] {
        return;
      }
      sinceTootId := fetched[0].id;
      var order := Reversed(fetched);
      var i := 0;
      while i < |order|
        invariant 0 <= i <= |order| && |results| == i
        invariant sinceTootId == fetched[0].id
        invariant forall j :: 0 <= j < i ==> TootHandled(order[j], results[j], clean, urls, post(j), upload(j))
      {
        var r := HandleToot(order[i], clean, urls, isUrl, post(i), upload(i));
        results := results + [r];
        i := i + 1;
      }
    }
  }
}
