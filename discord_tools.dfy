/**
 * The message counting of utils/discord_tools.py. The asynchronous channel
 * history becomes the sequence of message contents it yields, in order.
 *
 * get_questions collects every message and, once per question word found
 * in it, the message again; get_keywords looks at the first message only
 * and returns its three most frequent words outside a stopword list.
 */
module DiscordTools {
  import opened Wrappers

  const QuestionWords: seq<string> := ["what", "when", "where", "who", "why", "how", "can", "could", "would", "should"]

  const Stopwords: seq<string> := [
    "the", "and", "I", "to", "in", "a", "of", "is", "it",
    "you", "that", "he", "was", "for", "on", "are", "as",
    "with", "his", "they", "I'm", "at", "be", "this", "have",
    "from", "or", "one", "had", "by", "word", "but", "not", "what",
    "all", "were", "we", "when", "your", "can", "said", "there", "use",
    "an", "each", "which", "she", "do", "how", "their", "if", "will",
    "up", "other", "about", "out", "many", "then", "them", "these", "so",
    "some", "her", "would", "make", "like", "him", "into", "time", "has",
    "look", "two", "more", "write", "go", "see", "number", "no", "way",
    "could", "people", "my", "than", "first", "water", "been", "call",
    "who", "oil", "its", "now", "find", "long", "down", "day", "did",
    "get", "come", "made", "may", "part", "<#943011412219920415>"]

  /** `w` sits in `s` starting at position `i`. */
  predicate OccursAt(w: string, s: string, i: int)
  {
    0 <= i <= |s| - |w| && s[i..i + |w|] == w
  }

  /** `w` occurs in `s` as a contiguous piece (Python's `w in s`). */
  predicate Occurs(w: string, s: string)
  {
    exists i :: 0 <= i <= |s| - |w| && OccursAt(w, s, i)
  }

  /** Lower-case the ASCII letters and keep every other character. */
  function Lower(s: string): (r: string)
    ensures |r| == |s|
    ensures forall i :: 0 <= i < |s| ==> r[i] == (if 'A' <= s[i] <= 'Z' then s[i] - 'A' + 'a' else s[i])
  {
    seq(|s|, i requires 0 <= i < |s| => if 'A' <= s[i] <= 'Z' then s[i] - 'A' + 'a' else s[i])
  }

  /**
   * `s.count(w)`: occurrences of `w` scanned left to right without overlap;
   * the empty word occurs at each of the |s| + 1 positions.
   */
  function Count(s: string, w: string): (r: nat)
    decreases |s|
  {
    if |w| == 0 then |s| + 1
    else if |s| < |w| then 0
    else if s[..|w|] == w then 1 + Count(s[|w|..], w)
    else Count(s[1..], w)
  }

  /** Past a position where `w` does not start, `w` occurs in `s` exactly when it occurs in the rest. */
  lemma OccursPastHead(s: string, w: string)
    requires |s| > 0 && !OccursAt(w, s, 0)
    ensures Occurs(w, s) <==> Occurs(w, s[1..])
  {
    var tail := s[1..];
    if Occurs(w, tail) {
      var i :| 0 <= i <= |tail| - |w| && OccursAt(w, tail, i);
      assert s[i + 1..i + 1 + |w|] == tail[i..i + |w|];
      assert OccursAt(w, s, i + 1);
    }
    if Occurs(w, s) {
      var i :| 0 <= i <= |s| - |w| && OccursAt(w, s, i);
      assert tail[i - 1..i - 1 + |w|] == s[i..i + |w|];
      assert OccursAt(w, tail, i - 1);
    }
  }

  /** A non-empty word is counted at least once exactly when it occurs. */
  lemma {:induction false} CountPositiveIffOccurs(s: string, w: string)
    requires |w| > 0
    ensures Count(s, w) > 0 <==> Occurs(w, s)
    decreases |s|
  {
    if |s| >= |w| {
      if s[..|w|] == w {
        assert OccursAt(w, s, 0);
      } else {
        CountPositiveIffOccurs(s[1..], w);
        OccursPastHead(s, w);
      }
    } else {
      forall i | 0 <= i ensures !OccursAt(w, s, i) { }
    }
  }

  /** Non-overlapping: the counted occurrences fit side by side into `s`. */
  lemma {:induction false} CountFits(s: string, w: string)
    requires |w| > 0
    ensures Count(s, w) * |w| <= |s|
    decreases |s|
  {
    var len := |w|;
    if |s| < len {
      assert Count(s, w) == 0;
    } else if s[..len] == w {
      var rest := s[len..];
      CountFits(rest, w);
      var n := Count(rest, w);
      assert Count(s, w) == 1 + n;
      AddOneTimes(n, len);
    } else {
      var rest := s[1..];
      CountFits(rest, w);
      assert Count(s, w) == Count(rest, w);
    }
  }

  /** One more copy of `len`: kept apart so the step above stays linear. */
  lemma AddOneTimes(n: int, len: int)
    ensures (1 + n) * len == len + n * len
  {
  }

  /**
   * The per-message tally of get_questions: for each question word, its
   * count in the lower-cased message. It only feeds a debug log.
   */
  function QuestionCounts(content: string): (r: seq<nat>)
    ensures |r| == |QuestionWords|
    ensures forall i :: 0 <= i < |r| ==> r[i] == Count(Lower(content), QuestionWords[i])
  {
    seq(|QuestionWords|, i requires 0 <= i < |QuestionWords| => Count(Lower(content), QuestionWords[i]))
  }

  /**
   * The two tests disagree on capitals: the appending test is
   * case-sensitive, the tally lower-cases first, so "What?" is tallied
   * under "what" but not collected for it.
   */
  lemma CaseSensitiveTestMissesCapitals()
    ensures Count(Lower("What?"), "what") == 1
    ensures !Occurs("what", "What?")
  {
    assert Lower("What?") == "what?";
    assert "what?"[..4] == "what";
    assert Count("what?"[4..], "what") == 0;
    forall i | 0 <= i <= 1
      ensures !OccursAt("what", "What?", i)
    {
      assert "What?"[i..i + 4][0] == "What?"[i] != 'w';
    }
  }

  /** The copies of `content` get_questions collects: one per question word of `words` occurring in it, in word order. */
  function Hits(words: seq<string>, content: string): (r: seq<string>)
    ensures |r| <= |words|
    ensures forall i :: 0 <= i < |r| ==> r[i] == content
  {
    if |words| == 0 then []
    else Hits(words[..|words| - 1], content) + (if Occurs(words[|words| - 1], content) then [content] else [])
  }

  /** Each message collected once per question word it contains. */
  function CollectedQuestions(history: seq<string>): (r: seq<string>)
    ensures forall q :: q in r ==> q in history
  {
    if |history| == 0 then []
    else
      var r := CollectedQuestions(history[..|history| - 1]) + Hits(QuestionWords, history[|history| - 1]);
      assert forall q :: q in history[..|history| - 1] ==> q in history;
      r
  }

  /** A message holding exactly `n` of the question words is collected `n` times. */
  lemma {:induction false} HitsCountsMatchingWords(words: seq<string>, content: string)
    ensures |Hits(words, content)| == |set i | 0 <= i < |words| && Occurs(words[i], content)|
  {
    if |words| > 0 {
      var last := |words| - 1;
      var init := words[..last];
      HitsCountsMatchingWords(init, content);
      var before := set i | 0 <= i < |init| && Occurs(init[i], content);
      var after := set i | 0 <= i < |words| && Occurs(words[i], content);
      assert forall i :: 0 <= i < last ==> init[i] == words[i];
      assert last !in before;
      if Occurs(words[last], content) {
        assert after == before + {last};
      } else {
        assert after == before;
      }
    }
  }

  /** The inner loop of get_questions: one copy of the message per question word found in it. */
  method QuestionHits(content: string) returns (hits: seq<string>)
    ensures hits == Hits(QuestionWords, content)
    ensures |hits| == |set i | 0 <= i < |QuestionWords| && Occurs(QuestionWords[i], content)|
  {
    hits := [];
    for w := 0 to |QuestionWords|
      invariant hits == Hits(QuestionWords[..w], content)
    {
      assert QuestionWords[..w + 1][..w] == QuestionWords[..w];
      if Occurs(QuestionWords[w], content) {
        hits := hits + [content];
      }
    }
    assert QuestionWords[..|QuestionWords|] == QuestionWords;
    HitsCountsMatchingWords(QuestionWords, content);
  }

  /** The module-level lists get_questions appends to; they persist across calls. */
  class QuestionLog {
    var messages: seq<string>
    var questions: seq<string>

    constructor()
      ensures messages == [] && questions == []
    {
      messages, questions := [], [];
    }

    /**
     * get_questions: append every message to `messages`, and to `questions`
     * once for each question word that occurs in it (case-sensitively).
     * Returns the whole accumulated message list.
     */
    method GetQuestions(history: seq<string>) returns (result: seq<string>)
      modifies this`messages, this`questions
      ensures messages == old(messages) + history
      ensures questions == old(questions) + CollectedQuestions(history)
      ensures result == messages
    {
      var seen, asked := messages, questions;
      for n := 0 to |history|
        invariant seen == old(messages) + history[..n]
        invariant asked == old(questions) + CollectedQuestions(history[..n])
      {
        var content := history[n];
        seen := seen + [content];
        var hits := QuestionHits(content);
        asked := asked + hits;
        assert history[..n + 1][..n] == history[..n];
        assert history[..n + 1] == history[..n] + [content];
      }
      assert history[..|history|] == history;
      messages, questions := seen, asked;
      result := messages;
    }
  }

  /** The whitespace `str.split()` splits on. */
  predicate IsSpace(c: char)
  {
    c in {' ', '\t', '\n', '\r', '\U{000B}', '\U{000C}', '\U{001C}', '\U{001D}',
          '\U{001E}', '\U{001F}', '\U{0085}', '\U{00A0}', '\U{1680}', '\U{2000}', '\U{2001}', '\U{2002}',
          '\U{2003}', '\U{2004}', '\U{2005}', '\U{2006}', '\U{2007}', '\U{2008}', '\U{2009}', '\U{200A}',
          '\U{2028}', '\U{2029}', '\U{202F}', '\U{205F}', '\U{3000}'}
  }

  /** A word as split() yields it: non-empty, no whitespace inside. */
  predicate IsWord(w: string)
  {
    |w| > 0 && forall i :: 0 <= i < |w| ==> !IsSpace(w[i])
  }

  /** The longest prefix of `s` without whitespace. */
  function TakeWord(s: string): (r: string)
    ensures |r| <= |s| && r == s[..|r|]
    ensures forall i :: 0 <= i < |r| ==> !IsSpace(r[i])
    ensures |r| < |s| ==> IsSpace(s[|r|])
  {
    if |s| == 0 || IsSpace(s[0]) then "" else [s[0]] + TakeWord(s[1..])
  }

  /** The characters of `s` that are not whitespace, in order. */
  function NonSpace(s: string): (r: string)
    ensures |r| <= |s|
  {
    if |s| == 0 then "" else (if IsSpace(s[0]) then "" else [s[0]]) + NonSpace(s[1..])
  }

  /** The words run together, with nothing between them. */
  function Concat(ws: seq<string>): string
  {
    if |ws| == 0 then "" else ws[0] + Concat(ws[1..])
  }

  /** A whitespace-free prefix passes through NonSpace unchanged. */
  lemma {:induction false} NonSpaceSkipsWord(s: string, n: nat)
    requires n <= |s|
    requires forall i :: 0 <= i < n ==> !IsSpace(s[i])
    ensures NonSpace(s) == s[..n] + NonSpace(s[n..])
  {
    if n > 0 {
      NonSpaceSkipsWord(s[1..], n - 1);
      assert s[1..][n - 1..] == s[n..];
      assert s[..n] == [s[0]] + s[1..][..n - 1];
    }
  }

  /** A run of whitespace, possibly empty. */
  predicate Blank(g: string)
  {
    forall i :: 0 <= i < |g| ==> IsSpace(g[i])
  }

  /** `gaps[0] + ws[0] + gaps[1] + ... + ws[n-1] + gaps[n]`. */
  function Assemble(gaps: seq<string>, ws: seq<string>): string
    requires |gaps| == |ws| + 1
  {
    if |ws| == 0 then gaps[0] else gaps[0] + ws[0] + Assemble(gaps[1..], ws[1..])
  }

  /**
   * `s` cut into the words `ws` around the whitespace runs `gaps`: the
   * outer runs may be empty, the runs between two words may not.
   */
  predicate SplitWith(s: string, ws: seq<string>, gaps: seq<string>)
  {
    && |gaps| == |ws| + 1
    && (forall i :: 0 <= i < |ws| ==> IsWord(ws[i]))
    && (forall i :: 0 <= i < |gaps| ==> Blank(gaps[i]))
    && (forall i :: 0 < i < |ws| ==> |gaps[i]| > 0)
    && s == Assemble(gaps, ws)
  }

  /** `s` splits into exactly the words `ws`. */
  ghost predicate SplitsAs(s: string, ws: seq<string>)
  {
    exists gaps :: SplitWith(s, ws, gaps)
  }

  /**
   * `s.split()`: the maximal runs of non-whitespace, in order. Run
   * together they give back `s` with its whitespace removed.
   */
  function Words(s: string): (r: seq<string>)
    ensures forall i :: 0 <= i < |r| ==> IsWord(r[i])
    ensures Concat(r) == NonSpace(s)
    ensures SplitsAs(s, r)
    decreases |s|
  {
    if |s| == 0 then
      assert SplitWith(s, [], [""]);
      []
    else if IsSpace(s[0]) then
      var rest := Words(s[1..]);
      var gaps :| SplitWith(s[1..], rest, gaps);
      SplitPastSpace(s, rest, gaps);
      rest
    else
      var w := TakeWord(s);
      var rest := Words(s[|w|..]);
      NonSpaceSkipsWord(s, |w|);
      assert ([w] + rest)[1..] == rest;
      var gaps :| SplitWith(s[|w|..], rest, gaps);
      SplitPastWord(s, w, rest, gaps);
      [w] + rest
  }

  /** A leading space joins the first whitespace run of the rest's split. */
  lemma {:induction false} SplitPastSpace(s: string, rest: seq<string>, gaps: seq<string>)
    requires |s| > 0 && IsSpace(s[0]) && SplitWith(s[1..], rest, gaps)
    ensures SplitsAs(s, rest)
  {
    var more := [[s[0]] + gaps[0]] + gaps[1..];
    AssembleLongerHead(gaps, more, rest, [s[0]]);
    assert s == [s[0]] + s[1..];
    assert SplitWith(s, rest, more);
  }

  /** A leading word, cut where whitespace or the end follows, goes before the rest's split. */
  lemma {:induction false} SplitPastWord(s: string, w: string, rest: seq<string>, gaps: seq<string>)
    requires |s| > 0 && !IsSpace(s[0]) && w == TakeWord(s) && SplitWith(s[|w|..], rest, gaps)
    ensures SplitsAs(s, [w] + rest)
  {
    var ws, more := [w] + rest, [""] + gaps;
    var t := s[|w|..];
    assert ws[0] == w && ws[1..] == rest && more[0] == "" && more[1..] == gaps;
    assert Assemble(more, ws) == "" + w + Assemble(gaps, rest);
    assert s == w + t;
    assert IsWord(w);
    assert forall i :: 0 < i < |ws| ==> ws[i] == rest[i - 1];
    assert forall i :: 0 < i < |more| ==> more[i] == gaps[i - 1];
    if |rest| > 0 {
      assert t == gaps[0] + rest[0] + Assemble(gaps[1..], rest[1..]);
      assert |w| < |s| && IsSpace(t[0]) && !IsSpace(rest[0][0]);
    }
    assert SplitWith(s, ws, more);
  }

  /** Lengthening the first whitespace run by a prefix prefixes the assembled text. */
  lemma {:induction false} AssembleLongerHead(gaps: seq<string>, more: seq<string>, ws: seq<string>, head: string)
    requires |gaps| == |ws| + 1 && |more| == |gaps|
    requires more[0] == head + gaps[0] && more[1..] == gaps[1..]
    ensures Assemble(more, ws) == head + Assemble(gaps, ws)
  {
    if |ws| > 0 {
      var tail := Assemble(gaps[1..], ws[1..]);
      calc {
        Assemble(more, ws);
        more[0] + ws[0] + tail;
        (head + gaps[0]) + ws[0] + tail;
        head + (gaps[0] + ws[0] + tail);
      }
    }
  }

  /** A split around whitespace runs determines the words: it is the one `split()` returns. */
  lemma {:induction false} SplitDeterminesWords(s: string, ws: seq<string>, gaps: seq<string>)
    requires SplitWith(s, ws, gaps)
    ensures Words(s) == ws
    decreases |s|
  {
    if |gaps[0]| > 0 {
      var shorter := SplitAfterSpace(s, ws, gaps);
      SplitDeterminesWords(s[1..], ws, shorter);
    } else if |ws| > 0 {
      var t := SplitAfterWord(s, ws, gaps);
      SplitDeterminesWords(t, ws[1..], gaps[1..]);
      assert ws == [ws[0]] + ws[1..];
    }
  }

  /** A split starting with whitespace: `split()` skips the space, and the rest splits the same way. */
  lemma SplitAfterSpace(s: string, ws: seq<string>, gaps: seq<string>) returns (shorter: seq<string>)
    requires SplitWith(s, ws, gaps) && |gaps[0]| > 0
    ensures |s| > 0 && IsSpace(s[0]) && Words(s) == Words(s[1..])
    ensures SplitWith(s[1..], ws, shorter)
  {
    shorter := [gaps[0][1..]] + gaps[1..];
    AssembleLongerHead(shorter, gaps, ws, [gaps[0][0]]);
    assert gaps[0] == [gaps[0][0]] + gaps[0][1..];
    assert s[1..] == Assemble(shorter, ws);
    assert Blank(shorter[0]);
    assert forall i :: 0 < i < |shorter| ==> shorter[i] == gaps[i];
  }

  /** A split starting with a word: `split()` takes that word, and the rest splits into the others. */
  lemma SplitAfterWord(s: string, ws: seq<string>, gaps: seq<string>) returns (t: string)
    requires SplitWith(s, ws, gaps) && |gaps[0]| == 0 && |ws| > 0
    ensures |t| < |s| && Words(s) == [ws[0]] + Words(t)
    ensures SplitWith(t, ws[1..], gaps[1..])
  {
    var w := ws[0];
    t := Assemble(gaps[1..], ws[1..]);
    assert s == w + t;
    GapFollowsWord(ws, gaps);
    TakeWordOf(w, t);
    assert s[0] == w[0];
    assert s[|w|..] == t;
    TailSplits(s, t, ws, gaps);
  }

  /** What follows the first word of a split is empty or starts with whitespace. */
  lemma GapFollowsWord(ws: seq<string>, gaps: seq<string>)
    requires |gaps| == |ws| + 1 && |ws| > 0
    requires forall i :: 0 <= i < |ws| ==> IsWord(ws[i])
    requires forall i :: 0 <= i < |gaps| ==> Blank(gaps[i])
    requires forall i :: 0 < i < |ws| ==> |gaps[i]| > 0
    ensures var t := Assemble(gaps[1..], ws[1..]); |t| == 0 || IsSpace(t[0])
  {
    var t := Assemble(gaps[1..], ws[1..]);
    if |ws| == 1 {
      assert t == gaps[1];
    } else {
      assert |gaps[1]| > 0 && Blank(gaps[1]);
      assert t == gaps[1] + ws[1] + Assemble(gaps[2..], ws[2..]);
      assert t[0] == gaps[1][0];
    }
  }

  /** Dropping the first word and its empty leading run leaves a split of the rest. */
  lemma TailSplits(s: string, t: string, ws: seq<string>, gaps: seq<string>)
    requires SplitWith(s, ws, gaps) && |ws| > 0
    requires t == Assemble(gaps[1..], ws[1..])
    ensures SplitWith(t, ws[1..], gaps[1..])
  {
    assert forall i :: 0 <= i < |ws| - 1 ==> ws[1..][i] == ws[i + 1];
    assert forall i :: 0 <= i < |gaps| - 1 ==> gaps[1..][i] == gaps[i + 1];
  }

  /** `" ".join(ws)`: the words with one space between neighbours. */
  function JoinWords(ws: seq<string>): string
  {
    if |ws| == 0 then "" else if |ws| == 1 then ws[0] else ws[0] + " " + JoinWords(ws[1..])
  }

  /** A whitespace-free word followed by nothing or by whitespace is exactly the first word taken. */
  lemma {:induction false} TakeWordOf(w: string, t: string)
    requires forall i :: 0 <= i < |w| ==> !IsSpace(w[i])
    requires |t| == 0 || IsSpace(t[0])
    ensures TakeWord(w + t) == w
  {
    if |w| > 0 {
      assert (w + t)[1..] == w[1..] + t;
      TakeWordOf(w[1..], t);
    } else {
      assert w + t == t;
    }
  }

  /** Splitting words joined by single spaces gives the words back. */
  lemma {:induction false} SplitJoin(ws: seq<string>)
    requires forall i :: 0 <= i < |ws| ==> IsWord(ws[i])
    ensures Words(JoinWords(ws)) == ws
  {
    if |ws| > 0 {
      var w := ws[0];
      var s := JoinWords(ws);
      if |ws| == 1 {
        TakeWordOf(w, "");
        assert w + "" == w;
        assert s[|w|..] == "";
      } else {
        var more := JoinWords(ws[1..]);
        assert s == w + (" " + more);
        TakeWordOf(w, " " + more);
        assert s[0] == w[0];
        assert s[|w|..] == " " + more;
        assert (" " + more)[1..] == more;
        SplitJoin(ws[1..]);
        assert Words(s[|w|..]) == Words(more);
        assert ws == [w] + ws[1..];
      }
    }
  }

  /**
   * The comprehension of get_keywords: the words of `words` not listed in
   * `stop`, compared exactly, in order, each kept as often as it occurs.
   */
  function DropWords(words: seq<string>, stop: seq<string>): (r: seq<string>)
    ensures forall w :: multiset(r)[w] == if w in stop then 0 else multiset(words)[w]
  {
    if |words| == 0 then []
    else
      var init := words[..|words| - 1];
      var last := words[|words| - 1];
      assert words == init + [last];
      DropWords(init, stop) + (if last in stop then [] else [last])
  }

  /** A Counter entry: a word and how often it was seen. */
  datatype Tally = Tally(word: string, count: nat)

  /** Where the Counter keeps `w`, if it has seen it. */
  function KeyIndex(c: seq<Tally>, w: string): (r: Option<nat>)
    ensures r.Some? ==> r.value < |c| && c[r.value].word == w
    ensures r.None? ==> forall j :: 0 <= j < |c| ==> c[j].word != w
  {
    if |c| == 0 then None
    else if c[|c| - 1].word == w then Some(|c| - 1)
    else KeyIndex(c[..|c| - 1], w)
  }

  /** One more sighting of `w`: bump its count, or add it at the end with count 1. */
  function Bump(c: seq<Tally>, w: string): (r: seq<Tally>)
  {
    match KeyIndex(c, w)
    case Some(j) => c[j := Tally(w, c[j].count + 1)]
    case None => c + [Tally(w, 1)]
  }

  /** `Counter().update(words)`: each distinct word once, in order of first sighting. */
  function TallyOf(words: seq<string>): (r: seq<Tally>)
  {
    if |words| == 0 then [] else Bump(TallyOf(words[..|words| - 1]), words[|words| - 1])
  }

  /** The Counter has an entry for `w`. */
  predicate HasKey(c: seq<Tally>, w: string)
  {
    exists i :: 0 <= i < |c| && c[i].word == w
  }

  /** No word has two entries. */
  predicate DistinctWords(c: seq<Tally>)
  {
    forall i, j :: 0 <= i < j < |c| ==> c[i].word != c[j].word
  }

  /** Bumping keeps the words of a Counter distinct. */
  lemma BumpDistinct(c: seq<Tally>, w: string)
    requires DistinctWords(c)
    ensures DistinctWords(Bump(c, w))
  {
    match KeyIndex(c, w)
    case Some(j) =>
      assert Bump(c, w) == c[j := Tally(w, c[j].count + 1)];
    case None =>
      assert Bump(c, w) == c + [Tally(w, 1)];
  }

  /** Bumping `w` adds the key `w` and removes none. */
  lemma BumpKeys(c: seq<Tally>, w: string)
    ensures forall v :: HasKey(Bump(c, w), v) <==> HasKey(c, v) || v == w
  {
    var r := Bump(c, w);
    match KeyIndex(c, w)
    case Some(j) =>
      assert r == c[j := Tally(w, c[j].count + 1)];
      forall v | HasKey(c, v) || v == w
        ensures HasKey(r, v)
      {
        if v != w {
          var i :| 0 <= i < |c| && c[i].word == v;
          assert r[i].word == v;
        } else {
          assert r[j].word == v;
        }
      }
      forall v | HasKey(r, v)
        ensures HasKey(c, v)
      {
        var i :| 0 <= i < |r| && r[i].word == v;
        assert c[i].word == v;
      }
    case None =>
      assert r == c + [Tally(w, 1)];
      forall v | HasKey(c, v) || v == w
        ensures HasKey(r, v)
      {
        if v != w {
          var i :| 0 <= i < |c| && c[i].word == v;
          assert r[i].word == v;
        } else {
          assert r[|c|].word == v;
        }
      }
      forall v | HasKey(r, v) && v != w
        ensures HasKey(c, v)
      {
        var i :| 0 <= i < |r| && r[i].word == v;
        assert c[i].word == v;
      }
  }

  /** The Counter has a key for exactly the words seen. */
  lemma {:induction false} TallyOfKeys(words: seq<string>)
    ensures forall w :: w in words <==> HasKey(TallyOf(words), w)
  {
    if |words| > 0 {
      var init, w := words[..|words| - 1], words[|words| - 1];
      assert words == init + [w];
      TallyOfKeys(init);
      BumpKeys(TallyOf(init), w);
    }
  }

  /** The Counter has each word once. */
  lemma {:induction false} TallyOfDistinct(words: seq<string>)
    ensures DistinctWords(TallyOf(words))
  {
    if |words| > 0 {
      TallyOfDistinct(words[..|words| - 1]);
      BumpDistinct(TallyOf(words[..|words| - 1]), words[|words| - 1]);
    }
  }

  /**
   * The Counter holds exactly the words seen, each once, with the number of
   * times it was seen.
   */
  lemma {:induction false} TallyOfCounts(words: seq<string>)
    ensures DistinctWords(TallyOf(words))
    ensures forall i :: 0 <= i < |TallyOf(words)| ==>
      TallyOf(words)[i].count == multiset(words)[TallyOf(words)[i].word] && TallyOf(words)[i].count > 0
    ensures forall w :: w in words <==> HasKey(TallyOf(words), w)
  {
    TallyOfKeys(words);
    TallyOfDistinct(words);
    if |words| > 0 {
      var init, w := words[..|words| - 1], words[|words| - 1];
      assert words == init + [w];
      TallyOfCounts(init);
      var c := TallyOf(init);
      var r := TallyOf(words);
      assert multiset(words) == multiset(init) + multiset{w};
      match KeyIndex(c, w)
      case Some(j) =>
        assert r == c[j := Tally(w, c[j].count + 1)];
      case None =>
        assert r == c + [Tally(w, 1)];
        assert !HasKey(c, w);
        assert w !in init;
    }
  }

  /** The position of the first entry with the largest count. */
  function MaxIndex(c: seq<Tally>): (r: nat)
    requires |c| > 0
    ensures r < |c|
    ensures forall j :: 0 <= j < |c| ==> c[j].count <= c[r].count
    ensures forall j :: 0 <= j < r ==> c[j].count < c[r].count
  {
    if |c| == 1 then 0
    else
      var j := MaxIndex(c[1..]) + 1;
      if c[0].count >= c[j].count then 0 else j
  }

  /**
   * `most_common(k)`: repeatedly take the leftmost entry with the largest
   * count. This is the stable sort by descending count, cut after `k`
   * entries, so ties keep the order the words were first seen in.
   */
  function MostCommon(c: seq<Tally>, k: nat): (r: seq<Tally>)
    ensures |r| == Min(k, |c|)
    decreases k
  {
    if k == 0 || |c| == 0 then []
    else
      var m := MaxIndex(c);
      [c[m]] + MostCommon(RemoveAt(c, m), k - 1)
  }

  /** `c` without its entry at position `m`. */
  function RemoveAt(c: seq<Tally>, m: nat): (rest: seq<Tally>)
    requires m < |c|
    ensures |rest| == |c| - 1
    ensures forall i :: 0 <= i < m ==> rest[i] == c[i]
    ensures forall i :: m <= i < |rest| ==> rest[i] == c[i + 1]
  {
    c[..m] + c[m + 1..]
  }

  /** Removing one entry keeps every other entry and adds none. */
  lemma RemoveAtMembers(c: seq<Tally>, m: nat)
    requires m < |c|
    ensures forall e :: e in RemoveAt(c, m) ==> e in c
    ensures forall e :: e in c && e != c[m] ==> e in RemoveAt(c, m)
  {
    var rest := RemoveAt(c, m);
    forall e | e in rest
      ensures e in c
    {
      var i :| 0 <= i < |rest| && rest[i] == e;
      if i < m {
        assert c[i] == e;
      } else {
        assert c[i + 1] == e;
      }
    }
    forall e | e in c && e != c[m]
      ensures e in rest
    {
      var i :| 0 <= i < |c| && c[i] == e;
      if i < m {
        assert rest[i] == e;
      } else {
        assert rest[i - 1] == e;
      }
    }
  }

  /** Every entry most_common returns comes from the counter. */
  lemma {:induction false} MostCommonFromCounter(c: seq<Tally>, k: nat)
    ensures forall e :: e in MostCommon(c, k) ==> e in c
    decreases k
  {
    if k > 0 && |c| > 0 {
      var m := MaxIndex(c);
      var rest := RemoveAt(c, m);
      var tail := MostCommon(rest, k - 1);
      assert MostCommon(c, k) == [c[m]] + tail;
      MostCommonFromCounter(rest, k - 1);
      RemoveAtMembers(c, m);
    }
  }

  /** Entries listed by non-increasing count. */
  predicate NonIncreasing(r: seq<Tally>)
  {
    forall i, j :: 0 <= i < j < |r| ==> r[i].count >= r[j].count
  }

  /** No entry of `c` missing from the non-empty `r` counts more than the last entry of `r`. */
  predicate CoversLargest(r: seq<Tally>, c: seq<Tally>)
  {
    |r| > 0 && forall e :: e in c && e !in r ==> e.count <= r[|r| - 1].count
  }

  /** most_common lists its entries by non-increasing count. */
  lemma {:induction false} MostCommonSorted(c: seq<Tally>, k: nat)
    ensures NonIncreasing(MostCommon(c, k))
    decreases k
  {
    if k > 0 && |c| > 0 {
      var m := MaxIndex(c);
      var rest := RemoveAt(c, m);
      var tail := MostCommon(rest, k - 1);
      MostCommonSorted(rest, k - 1);
      MostCommonFromCounter(rest, k - 1);
      RemoveAtMembers(c, m);
      var r := [c[m]] + tail;
      assert MostCommon(c, k) == r;
      forall i, j | 0 <= i < j < |r|
        ensures r[i].count >= r[j].count
      {
        var e := tail[j - 1];
        assert r[j] == e;
        if i > 0 {
          assert r[i] == tail[i - 1];
        } else {
          assert e in rest;
          var q :| 0 <= q < |c| && c[q] == e;
        }
      }
    }
  }

  /** No entry most_common leaves out has a larger count than the last one it takes. */
  lemma {:induction false} MostCommonMaximal(c: seq<Tally>, k: nat)
    requires k > 0 && |c| > 0
    ensures CoversLargest(MostCommon(c, k), c)
    decreases k
  {
    var m := MaxIndex(c);
    var rest := RemoveAt(c, m);
    var tail := MostCommon(rest, k - 1);
    var r := [c[m]] + tail;
    assert MostCommon(c, k) == r;
    RemoveAtMembers(c, m);
    if |tail| == 0 {
      forall e | e in c && e !in r
        ensures e.count <= r[0].count
      {
        var q :| 0 <= q < |c| && c[q] == e;
      }
    } else {
      MostCommonMaximal(rest, k - 1);
      assert r[|r| - 1] == tail[|tail| - 1];
      forall e | e in c && e !in r
        ensures e.count <= r[|r| - 1].count
      {
        assert e != c[m];
        assert e in rest && e !in tail;
      }
    }
  }

  /**
   * The up-to-three most frequent words of `all` that are not listed in
   * `stop`, each with the number of times `all` holds it, most frequent
   * first.
   */
  function TopWords(all: seq<string>, stop: seq<string>): (r: seq<Tally>)
    ensures |r| == Min(3, |set w | w in all && w !in stop|)
    ensures DistinctWords(r)
    ensures NonIncreasing(r)
    ensures forall i :: 0 <= i < |r| ==>
      && r[i].word !in stop
      && r[i].count > 0
      && r[i].count == multiset(all)[r[i].word]
  {
    var words := DropWords(all, stop);
    MostCommonCounts(words, 3);
    MostCommonSorted(TallyOf(words), 3);
    TallyOfDistinct(words);
    MostCommonDistinct(TallyOf(words), 3);
    TallyOfSize(words);
    DropWordsSet(all, stop);
    MostCommon(TallyOf(words), 3)
  }

  /** The words the comprehension keeps are the non-stopwords of `all`. */
  lemma DropWordsSet(all: seq<string>, stop: seq<string>)
    ensures (set w | w in DropWords(all, stop)) == (set w | w in all && w !in stop)
  {
    var kept := DropWords(all, stop);
    forall w | w in kept
      ensures w in all && w !in stop
    {
      assert multiset(kept)[w] > 0;
    }
    forall w | w in all && w !in stop
      ensures w in kept
    {
      assert multiset(all)[w] > 0;
    }
  }

  /** The Counter has one entry per distinct word seen. */
  lemma {:induction false} TallyOfSize(words: seq<string>)
    ensures |TallyOf(words)| == |set w | w in words|
  {
    if |words| > 0 {
      var init, w := words[..|words| - 1], words[|words| - 1];
      var c := TallyOf(init);
      TallyOfSize(init);
      TallyOfKeys(init);
      assert HasKey(c, w) <==> w in init;
      BumpSize(c, w);
      SeenGrows(init, w);
      assert words == init + [w];
      calc {
        |TallyOf(words)|;
        |Bump(c, w)|;
        if w in init then |set v | v in init| else |set v | v in init| + 1;
        |set v | v in init + [w]|;
      }
    }
  }

  /** The words seen after one more word: the earlier ones and that word. */
  lemma SeenGrows(init: seq<string>, w: string)
    ensures |set v | v in init + [w]| == if w in init then |set v | v in init| else |set v | v in init| + 1
  {
    var seen := set v | v in init;
    assert (set v | v in init + [w]) == seen + {w};
    if w in init {
      assert seen + {w} == seen;
    }
  }

  /** Bumping a known word keeps the Counter's length; a new word adds one entry. */
  lemma BumpSize(c: seq<Tally>, w: string)
    ensures |Bump(c, w)| == if HasKey(c, w) then |c| else |c| + 1
  {
    match KeyIndex(c, w)
    case Some(j) =>
    case None =>
      assert !HasKey(c, w);
  }

  /** Dropping an entry of a Counter keeps its words distinct and loses that entry's word. */
  lemma RemoveAtDistinct(c: seq<Tally>, m: nat)
    requires m < |c| && DistinctWords(c)
    ensures DistinctWords(RemoveAt(c, m))
    ensures forall i :: 0 <= i < |RemoveAt(c, m)| ==> RemoveAt(c, m)[i].word != c[m].word
  {
    var rest := RemoveAt(c, m);
    forall i, j | 0 <= i < j < |rest|
      ensures rest[i].word != rest[j].word
    {
      var a := if i < m then i else i + 1;
      var b := if j < m then j else j + 1;
      assert rest[i] == c[a] && rest[j] == c[b];
    }
    forall i | 0 <= i < |rest|
      ensures rest[i].word != c[m].word
    {
      var a := if i < m then i else i + 1;
      assert rest[i] == c[a];
    }
  }

  /** most_common of a Counter lists each word at most once. */
  lemma {:induction false} MostCommonDistinct(c: seq<Tally>, k: nat)
    requires DistinctWords(c)
    ensures DistinctWords(MostCommon(c, k))
    decreases k
  {
    if k > 0 && |c| > 0 {
      var m := MaxIndex(c);
      var rest := RemoveAt(c, m);
      var tail := MostCommon(rest, k - 1);
      RemoveAtDistinct(c, m);
      MostCommonDistinct(rest, k - 1);
      MostCommonFromCounter(rest, k - 1);
      var r := [c[m]] + tail;
      assert MostCommon(c, k) == r;
      forall i, j | 0 <= i < j < |r|
        ensures r[i].word != r[j].word
      {
        var e := tail[j - 1];
        assert r[j] == e;
        if i > 0 {
          assert r[i] == tail[i - 1];
        } else {
          assert e in rest;
          var q :| 0 <= q < |rest| && rest[q] == e;
        }
      }
    }
  }

  /** Whatever most_common picks carries its true, positive count. */
  lemma MostCommonCounts(words: seq<string>, k: nat)
    ensures forall e :: e in MostCommon(TallyOf(words), k) ==> e.count == multiset(words)[e.word] && e.count > 0
  {
    TallyOfCounts(words);
    var c := TallyOf(words);
    MostCommonFromCounter(c, k);
    forall e | e in MostCommon(c, k)
      ensures e.count == multiset(words)[e.word] && e.count > 0
    {
      var j :| 0 <= j < |c| && c[j] == e;
    }
  }

  /** Words the top three leave out are no more frequent than the third. */
  lemma TopWordsAreMostFrequent(all: seq<string>, stop: seq<string>, w: string)
    requires w in all && w !in stop
    requires |TopWords(all, stop)| == 3
    requires forall i :: 0 <= i < 3 ==> TopWords(all, stop)[i].word != w
    ensures multiset(all)[w] <= TopWords(all, stop)[2].count
  {
    var words := DropWords(all, stop);
    TallyOfCounts(words);
    var c := TallyOf(words);
    assert w in words by {
      assert multiset(words)[w] == multiset(all)[w];
    }
    assert HasKey(c, w);
    var k :| 0 <= k < |c| && c[k].word == w;
    MostCommonMaximal(c, 3);
    var top := MostCommon(c, 3);
    assert top == TopWords(all, stop);
    assert c[k] !in top;
    assert c[k].count <= top[|top| - 1].count;
  }

  /**
   * get_keywords: the history is read up to its first message, whose
   * keywords are returned; an empty history returns nothing.
   */
  function GetKeywords(history: seq<string>): (r: Option<seq<Tally>>)
    ensures r.None? <==> |history| == 0
    ensures r.Some? ==> r.value == TopWords(Words(history[0]), Stopwords)
  {
    if |history| == 0 then None else Some(TopWords(Words(history[0]), Stopwords))
  }
}
