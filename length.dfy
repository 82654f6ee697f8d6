/** Effective length and splitting of a status (mtt/utils.py:121-192).  Twitter
    counts every link as a fixed-width short link, so a text is measured with each
    match of the URL pattern counted as `shortUrlLength` characters; a text over the
    budget is wrapped greedily, word by word, into parts that are then numbered, or
    cut and closed with an ellipsis and a link back to the original. */
module Length {
  import opened Python

  /** One match of the URL pattern: where it starts and how many characters it covers. */
  datatype Span = Span(start: nat, len: nat)

  /** `re.findall(URL_REGEXP, text)`: the URL pattern, built from python-twitter's
      list of top-level domains, is a parameter of the model. */
  type UrlMatcher = string -> seq<Span>

  /** `twitter.twitter_utils.is_url`, a parameter of the model. */
  type UrlTest = string -> bool

  /** Matches as `re.findall` reports them: non-empty, inside the text, from left to
      right and not overlapping. */
  predicate WellFormed(spans: seq<Span>, n: nat) {
    (forall k :: 0 <= k < |spans| ==> spans[k].len > 0 && spans[k].start + spans[k].len <= n) &&
    (forall j, k :: 0 <= j < k < |spans| ==> spans[j].start + spans[j].len <= spans[k].start)
  }

  /** `len(''.join(matches))`: how many characters the matches cover. */
  function MatchedChars(spans: seq<Span>): nat
    decreases |spans|
  {
    if spans == [] then 0 else MatchedChars(spans[..|spans| - 1]) + spans[|spans| - 1].len
  }

  /** `calc_expected_status_length(status, short_url_length)` (mtt/utils.py:121-129,
      and the older copy in MastodonToTwitter.py:39-46 with its default of 23). */
  function EffectiveLength(status: string, shortUrlLength: int, urls: UrlMatcher): (n: int)
    ensures urls(status) == [] ==> n == |status|
  {
    var matches := urls(status);
    if |matches| > 0 then |status| - MatchedChars(matches) + shortUrlLength * |matches|
    else |status|
  }

  /** The text with every span replaced by `rep`: what the destination shows when it
      rewrites each link into a short link. */
  function ReplaceSpans(s: string, spans: seq<Span>, rep: string): string
    requires WellFormed(spans, |s|)
    decreases |spans|
  {
    if spans == [] then s
    else
      var last := spans[|spans| - 1];
      var init := spans[..|spans| - 1];
      assert forall k :: 0 <= k < |init| ==> init[k] == spans[k];
      assert WellFormed(init, last.start);
      ReplaceSpans(s[..last.start], init, rep) + rep + s[last.start + last.len..]
  }

  lemma {:induction false} ReplaceSpansLength(s: string, spans: seq<Span>, rep: string)
    requires WellFormed(spans, |s|)
    ensures |ReplaceSpans(s, spans, rep)| == |s| - MatchedChars(spans) + |spans| * |rep|
    decreases |spans|
  {
    if spans != [] {
      var last := spans[|spans| - 1];
      var init := spans[..|spans| - 1];
      assert forall k :: 0 <= k < |init| ==> init[k] == spans[k];
      assert WellFormed(init, last.start);
      ReplaceSpansLength(s[..last.start], init, rep);
      assert |spans| * |rep| == |init| * |rep| + |rep|;
    }
  }

  /** A short link of the given width. */
  function ShortLink(width: nat): (r: string)
    ensures |r| == width
  {
    seq(width, _ => 'x')
  }

  /** The effective length is the length of the text once each URL match is replaced
      by a short link of `shortUrlLength` characters; with no match it is the plain
      length. */
  lemma EffectiveLengthIsShortenedLength(status: string, shortUrlLength: nat, urls: UrlMatcher)
    requires WellFormed(urls(status), |status|)
    ensures EffectiveLength(status, shortUrlLength, urls) ==
            |ReplaceSpans(status, urls(status), ShortLink(shortUrlLength))|
    ensures EffectiveLength(status, shortUrlLength, urls) >= 0
  {
    ReplaceSpansLength(status, urls(status), ShortLink(shortUrlLength));
  }

  // ---------------------------------------------------------------------------
  // Steps of the greedy wrap

  /** The condition under which an overflowing word is cut in two (mtt/utils.py:159,
      MastodonToTwitter.py:224). */
  predicate CutsWord(word: string, spaceLeft: int, isUrl: UrlTest) {
    |word| > 30 && spaceLeft > 5 && !isUrl(word)
  }

  /** What happens to the current part when the next word does not fit: either the
      word's head fills the `spaceLeft` characters still free and its tail starts
      the next part, or the part is closed as it is and the whole word starts the
      next one.  Returns the closed part and the start of the next one. */
  function BreakWord(current: string, word: string, spaceLeft: int, isUrl: UrlTest): (r: (string, string))
    ensures CutsWord(word, spaceLeft, isUrl) ==>
              r.0 + r.1 == current + " " + word &&
              |r.0| == |current| + 1 + Min(spaceLeft, |word|)
    ensures !CutsWord(word, spaceLeft, isUrl) ==> r.0 == current && r.1 == word
    ensures NonSpace(r.0) + NonSpace(r.1) == NonSpace(current) + NonSpace(word)
  {
    if CutsWord(word, spaceLeft, isUrl) then
      CutKeeps(current, word, spaceLeft);
      CutKeepsNonSpace(current, word, spaceLeft);
      (current + " " + Take(word, spaceLeft), Drop(word, spaceLeft))
    else
      (current, word)
  }

  /** Cutting a word after its first `k` characters keeps the text... */
  lemma CutKeeps(current: string, word: string, k: int)
    ensures current + " " + Take(word, k) + Drop(word, k) == current + " " + word
  {
    var head, tail := Take(word, k), Drop(word, k);
    assert current + " " + head + tail == (current + " ") + (head + tail);
  }

  /** ... and its non-space characters. */
  lemma CutKeepsNonSpace(current: string, word: string, k: int)
    ensures NonSpace(current + " " + Take(word, k)) + NonSpace(Drop(word, k)) == NonSpace(current) + NonSpace(word)
  {
    var head, tail := Take(word, k), Drop(word, k);
    NonSpaceSpaced(current, head);
    NonSpaceConcat(head, tail);
    var u, h, t := NonSpace(current), NonSpace(head), NonSpace(tail);
    assert u + h + t == u + (h + t);
  }

  /** The loop that cuts an over-long part into slices of exactly `width`
      characters until what remains fits (mtt/utils.py:168-170,
      MastodonToTwitter.py:233-235).  With a width of zero or less the source's
      loop does not terminate once it has text to cut. */
  method HardSplit(part: string, width: nat) returns (slices: seq<string>, rest: string)
    requires width > 0
    ensures forall k :: 0 <= k < |slices| ==> |slices[k]| == width
    ensures |rest| <= width
    ensures Concat(slices) + rest == part
  {
    slices, rest := [], part;
    while |rest| > width
      invariant forall k :: 0 <= k < |slices| ==> |slices[k]| == width
      invariant Concat(slices) + rest == part
      decreases |rest|
    {
      ConcatAppend(slices, [rest[..width]]);
      assert Concat([rest[..width]]) == rest[..width];
      assert rest == rest[..width] + rest[width..];
      slices, rest := slices + [rest[..width]], rest[width..];
    }
  }

  // ---------------------------------------------------------------------------
  // Numbering

  /** `f' — {i}/{n}'`. */
  function NumberSuffix(i: nat, n: nat): string {
    " \U{2014} " + NatToString(i) + "/" + NatToString(n)
  }

  /** A suffix tells its position and the total apart: two suffixes are equal only
      for the same position out of the same count. */
  lemma NumberSuffixInjective(i: nat, n: nat, j: nat, m: nat)
    requires NumberSuffix(i, n) == NumberSuffix(j, m)
    ensures i == j && n == m
  {
    var a, b, c, d := NatToString(i), NatToString(n), NatToString(j), NatToString(m);
    var s := NumberSuffix(i, n);
    assert s == " \U{2014} " + a + "/" + b;
    assert s == " \U{2014} " + c + "/" + d;
    FirstIndexOfAfter(" \U{2014} " + a, '/', b);
    FirstIndexOfAfter(" \U{2014} " + c, '/', d);
    assert |a| == |c|;
    assert s[3..3 + |a|] == a;
    assert s[3..3 + |c|] == c;
    assert s[4 + |a|..] == b;
    assert s[4 + |c|..] == d;
    NatToStringInjective(i, j);
    NatToStringInjective(n, m);
  }

  /** The final numbering loop (mtt/utils.py:187-190): part i (from 1) of n gets
      `' — i/n'` appended, in place. */
  method Number(parts: seq<string>) returns (numbered: seq<string>)
    ensures |numbered| == |parts|
    ensures forall k :: 0 <= k < |parts| ==> numbered[k] == parts[k] + NumberSuffix(k + 1, |parts|)
  {
    numbered := parts;
    var i := 0;
    while i < |numbered|
      invariant 0 <= i <= |numbered| == |parts|
      invariant forall k :: 0 <= k < i ==> numbered[k] == parts[k] + NumberSuffix(k + 1, |parts|)
      invariant forall k :: i <= k < |parts| ==> numbered[k] == parts[k]
    {
      numbered := numbered[i := numbered[i] + NumberSuffix(i + 1, |parts|)];
      i := i + 1;
    }
  }

  // ---------------------------------------------------------------------------
  // split_status

  /** `if not url_length: url_length = 24`. */
  function UrlLengthOrDefault(urlLength: Option<int>): int {
    if urlLength == None || urlLength.value == 0 then 24 else urlLength.value
  }

  /** `' ' + w0 + ' ' + w1 + ...`: the part built by appending each of `words`
      after a space, starting from the empty part. */
  function Accumulated(words: seq<string>): string
    decreases |words|
  {
    if words == [] then "" else Accumulated(words[..|words| - 1]) + " " + words[|words| - 1]
  }

  lemma {:induction false} AccumulatedIsJoin(words: seq<string>)
    requires |words| >= 1
    ensures Accumulated(words) == " " + JoinWith(words, " ")
    decreases |words|
  {
    if |words| > 1 {
      var init := words[..|words| - 1];
      AccumulatedIsJoin(init);
      JoinWithSnoc(init, words[|words| - 1]);
      assert init + [words[|words| - 1]] == words;
    } else {
      assert words[..0] == [];
    }
  }

  lemma {:induction false} JoinWithSnoc(words: seq<string>, w: string)
    requires |words| >= 1
    ensures JoinWith(words + [w], " ") == JoinWith(words, " ") + " " + w
    decreases |words|
  {
    if |words| == 1 {
      assert (words + [w])[1..] == [w];
    } else {
      assert (words + [w])[1..] == words[1..] + [w];
      JoinWithSnoc(words[1..], w);
    }
  }

  /** Appending `word` to `current` would take the effective length over `budget`. */
  predicate Overflows(current: string, word: string, budget: int, shortUrlLength: int, urls: UrlMatcher) {
    EffectiveLength(current + " " + word, shortUrlLength, urls) > budget
  }

  /** Word `j` is the first one that does not fit when the words are only ever
      appended, as with splitting off. */
  predicate FirstOverflowAt(words: seq<string>, j: nat, budget: int, shortUrlLength: int, urls: UrlMatcher)
    requires j < |words|
  {
    Overflows(Accumulated(words[..j]), words[j], budget, shortUrlLength, urls) &&
    NoOverflowBefore(words, j, budget, shortUrlLength, urls)
  }

  /** None of the first `j` words overflows when appended. */
  predicate NoOverflowBefore(words: seq<string>, j: nat, budget: int, shortUrlLength: int, urls: UrlMatcher)
    requires j <= |words|
  {
    forall k :: 0 <= k < j ==> !Overflows(Accumulated(words[..k]), words[k], budget, shortUrlLength, urls)
  }

  lemma NoOverflowExtend(words: seq<string>, j: nat, budget: int, shortUrlLength: int, urls: UrlMatcher)
    requires j < |words|
    requires NoOverflowBefore(words, j, budget, shortUrlLength, urls)
    requires !Overflows(Accumulated(words[..j]), words[j], budget, shortUrlLength, urls)
    ensures NoOverflowBefore(words, j + 1, budget, shortUrlLength, urls)
  {
  }

  /** Appending a word that fits keeps every word so far fitting, and the part
      grows by that word. */
  lemma NoOverflowStep(words: seq<string>, j: nat, budget: int, shortUrlLength: int, urls: UrlMatcher)
    requires j < |words|
    requires NoOverflowBefore(words, j, budget, shortUrlLength, urls)
    requires !Overflows(Accumulated(words[..j]), words[j], budget, shortUrlLength, urls)
    ensures NoOverflowBefore(words, j + 1, budget, shortUrlLength, urls)
    ensures Accumulated(words[..j + 1]) == Accumulated(words[..j]) + " " + words[j]
  {
    assert words[..j + 1][..j] == words[..j];
    NoOverflowExtend(words, j, budget, shortUrlLength, urls);
  }

  /** `current_part[:-space_for_suffix] + '… ' + url`, with `space_for_suffix =
      len('… ') + url_length` (mtt/utils.py:172-173). */
  function Truncated(current: string, shortUrlLength: int, url: string): string {
    Take(current, -(2 + shortUrlLength)) + "\U{2026} " + url
  }

  lemma NonSpaceSpaced(a: string, b: string)
    ensures NonSpace(a + " " + b) == NonSpace(a) + NonSpace(b)
  {
    NonSpaceConcat(a + " ", b);
    NonSpaceConcat(a, " ");
    NonSpaceOfSpace();
    assert NonSpace(a) + [] == NonSpace(a);
  }

  lemma NonSpaceConcatOf(a: seq<string>, b: seq<string>)
    ensures NonSpace(Concat(a + b)) == NonSpace(Concat(a)) + NonSpace(Concat(b))
  {
    ConcatAppend(a, b);
    NonSpaceConcat(Concat(a), Concat(b));
  }

  lemma ConcatSingle(x: string)
    ensures Concat([x]) == x
  {
    assert Concat([x]) == x + Concat([]);
  }

  /** The non-space text of the closed parts, the current part and the words still
      to come is `total`. */
  ghost predicate Keeps(content: seq<string>, current: string, rest: seq<string>, total: string) {
    NonSpace(Concat(content)) + NonSpace(current) + NonSpace(Concat(rest)) == total
  }

  lemma SplitCutKeeps(content: seq<string>, current: string, word: string, rest: seq<string>,
                      closed: string, slices: seq<string>, tail: string, total: string)
    requires NonSpace(closed) + NonSpace(Concat(slices) + tail) == NonSpace(current) + NonSpace(word)
    requires Keeps(content, current, [word] + rest, total)
    ensures Keeps(content + [closed] + slices, tail, rest, total)
  {
    var a, c, s, t := NonSpace(Concat(content)), NonSpace(closed), NonSpace(Concat(slices)), NonSpace(tail);
    var r, w, u := NonSpace(Concat(rest)), NonSpace(word), NonSpace(current);
    NonSpaceConcatOf(content + [closed], slices);
    NonSpaceConcatOf(content, [closed]);
    ConcatSingle(closed);
    assert NonSpace(Concat(content + [closed] + slices)) == a + c + s;
    NonSpaceConcat(Concat(slices), tail);
    assert c + (s + t) == u + w;
    NonSpaceConcatOf([word], rest);
    ConcatSingle(word);
    assert NonSpace(Concat([word] + rest)) == w + r;
    Regroup(a, c, s, t, r, u, w);
  }

  lemma Regroup(a: string, c: string, s: string, t: string, r: string, u: string, w: string)
    requires c + (s + t) == u + w
    ensures a + c + s + t + r == a + u + (w + r)
  {
    assert a + c + s + t + r == a + (c + (s + t)) + r;
    assert a + u + (w + r) == a + (u + w) + r;
  }

  /** Appending a word to the current part keeps the non-space text. */
  lemma SplitAppendKeeps(content: seq<string>, current: string, word: string, rest: seq<string>, total: string)
    requires Keeps(content, current, [word] + rest, total)
    ensures Keeps(content, current + " " + word, rest, total)
  {
    NonSpaceConcatOf([word], rest);
    ConcatSingle(word);
    NonSpaceSpaced(current, word);
  }

  /** "Insert last part" (mtt/utils.py:181-183): the stripped current part is
      appended unless it is blank and some part already exists. */
  function InsertLastPart(content: seq<string>, current: string): (r: seq<string>)
    ensures |r| >= 1
    ensures |content| == 0 ==> r == [Strip(current)]
    ensures NonSpace(Concat(r)) == NonSpace(Concat(content)) + NonSpace(current)
    ensures r == content || r == content + [Strip(current)]
  {
    StripProperties(current);
    if |Strip(current)| != 0 || |content| == 0 then
      NonSpaceConcatOf(content, [Strip(current)]);
      ConcatSingle(Strip(current));
      content + [Strip(current)]
    else
      NonSpaceOfAllSpace(current);
      content
  }

  /** The word loop of `split_status` in splitting mode, with the final
      `current_part.strip()` (mtt/utils.py:150-170, 181-183; MastodonToTwitter.py:216-242):
      a word that takes the effective length over `threshold` closes the current
      part (after taking the head of a long word when `room` leaves space for
      it) and over-long remainders are sliced to `width` characters.  The module
      uses `budget`, `budget - 5`, `budget - 5`; the older script 135 for all three. */
  method SplitWords(words: seq<string>, threshold: int, room: int, width: int, ul: int,
                    urls: UrlMatcher, isUrl: UrlTest)
    returns (content: seq<string>)
    requires width >= 1
    ensures |content| >= 1
    ensures NonSpace(Concat(content)) == NonSpace(Concat(words))
  {
    content := [];
    ghost var total := NonSpace(Concat(words));
    var current := "";
    var i := 0;
    assert words[0..] == words;
    while i < |words|
      invariant 0 <= i <= |words|
      invariant Keeps(content, current, words[i..], total)
    {
      var word := words[i];
      assert words[i..] == [word] + words[i + 1..];
      if EffectiveLength(current + " " + word, ul, urls) > threshold {
        var spaceLeft := room - EffectiveLength(current, ul, urls) - 1;
        var (closed, next) := BreakWord(current, word, spaceLeft, isUrl);
        var slices, tail := HardSplit(next, width);
        SplitCutKeeps(content, current, word, words[i + 1..], closed, slices, tail, total);
        content := content + [closed] + slices;
        current := tail;
      } else {
        SplitAppendKeeps(content, current, word, words[i + 1..], total);
        current := current + " " + word;
      }
      i := i + 1;
    }
    assert words[i..] == [];
    content := InsertLastPart(content, current);
  }

  /** The word loop of `split_status` in truncating mode, with the final
      `current_part.strip()` (mtt/utils.py:150-156, 171-183): the first word that
      does not fit ends the loop, and the part built so far is cut to leave room for
      an ellipsis and the link. */
  method TruncateWords(words: seq<string>, budget: int, ul: int, url: string, urls: UrlMatcher)
    returns (content: seq<string>)
    ensures |content| == 1
    ensures (exists j :: 0 <= j < |words| && FirstOverflowAt(words, j, budget, ul, urls) &&
                         content[0] == Truncated(Accumulated(words[..j]), ul, url)) ||
            (NoOverflowBefore(words, |words|, budget, ul, urls) && content[0] == Strip(Accumulated(words)))
  {
    content := [];
    var current := "";
    var i := 0;
    while i < |words|
      invariant 0 <= i <= |words|
      invariant content == [] && current == Accumulated(words[..i]) && NoOverflowBefore(words, i, budget, ul, urls)
    {
      var word := words[i];
      if EffectiveLength(current + " " + word, ul, urls) > budget {
        assert FirstOverflowAt(words, i, budget, ul, urls);
        content := content + [Truncated(current, ul, url)];
        current := "";
        assert Strip(current) == "";
        break;
      }
      NoOverflowStep(words, i, budget, ul, urls);
      current := current + " " + word;
      i := i + 1;
    }
    if i == |words| {
      assert words[..i] == words;
    }
    content := InsertLastPart(content, current);
  }

  /** `split_status(status, max_length, split, url, url_length)` (mtt/utils.py:132-192).
      `pieces` are the parts before numbering.  Splitting needs `max_length` of at
      least 12: below that the slicing loop never ends. */
  method SplitStatus(status: string, maxLength: int, split: bool, url: string, urlLength: Option<int>,
                     urls: UrlMatcher, isUrl: UrlTest)
    returns (parts: seq<string>, ghost pieces: seq<string>)
    requires split ==> maxLength >= 12
    ensures |parts| >= 1
    // a status that fits is returned unchanged and unnumbered
    ensures EffectiveLength(status, UrlLengthOrDefault(urlLength), urls) <= maxLength - 6 ==> parts == [status]
    // splitting: no non-space character is lost or moved, and parts are numbered i/n
    ensures split ==> |pieces| >= 1 && NonSpace(Concat(pieces)) == NonSpace(status)
    ensures split && |pieces| > 1 ==>
              |parts| == |pieces| &&
              forall k :: 0 <= k < |pieces| ==> parts[k] == pieces[k] + NumberSuffix(k + 1, |pieces|)
    ensures !(split && |pieces| > 1) ==> parts == pieces
    // truncating: one part, cut before the first word that does not fit
    ensures !split ==> |parts| == 1
    ensures !split && EffectiveLength(status, UrlLengthOrDefault(urlLength), urls) > maxLength - 6 ==>
              var words := SplitOnSpace(status);
              var ul := UrlLengthOrDefault(urlLength);
              (exists j :: 0 <= j < |words| && FirstOverflowAt(words, j, maxLength - 6, ul, urls) &&
                           parts[0] == Truncated(Accumulated(words[..j]), ul, url)) ||
              (NoOverflowBefore(words, |words|, maxLength - 6, ul, urls) && parts[0] == Strip(" " + status))
  {
    var ul := UrlLengthOrDefault(urlLength);
    var budget := maxLength - 6;
    var content: seq<string>;
    if EffectiveLength(status, ul, urls) > budget {
      var words := SplitOnSpace(status);
      JoinSplitOnSpace(status);
      if split {
        content := SplitWords(words, budget, budget - 5, budget - 5, ul, urls, isUrl);
        NonSpaceJoinWithSpace(words);
      } else {
        content := TruncateWords(words, budget, ul, url, urls);
        AccumulatedIsJoin(words);
      }
    } else {
      content := [status];
      ConcatSingle(status);
    }
    pieces := content;
    parts := content;
    if split && |content| > 1 {
      parts := Number(content);
    }
  }
}
