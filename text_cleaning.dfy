/**
 * `preprocess_text` of src/dataPreprocessing.py: lower-case, delete markup,
 * URLs and e-mail addresses, delete punctuation, drop non-ASCII characters,
 * split on whitespace, drop stopwords and join the surviving tokens with one
 * space. The stopword list is a parameter.
 */
module TextCleaning {
  import opened Chars
  import opened Positions

  // ---------------------------------------------------------------------
  // Step 2: re.sub(r"<.*?>|http\S+|www\.\S+|\S+@\S+", "", text)
  // ---------------------------------------------------------------------

  /** Length of the leading run of non-whitespace characters: what `\S+` takes greedily. */
  function NonSpaceRun(s: string): (n: nat)
    ensures n <= |s|
    ensures forall i :: 0 <= i < n ==> !IsSpace(s[i])
    ensures n < |s| ==> IsSpace(s[n])
  {
    if s == [] || IsSpace(s[0]) then 0 else 1 + NonSpaceRun(s[1..])
  }

  /**
   * The lazy `.*?>` after a '<' at index 0, scanning from index j: the end of
   * the match at the first '>', or 0 when a newline (which `.` does not match)
   * or the end of the text comes first.
   */
  function TagEnd(s: string, j: nat): (n: nat)
    requires 1 <= j <= |s|
    ensures n != 0 ==> j < n <= |s| && s[n - 1] == '>'
    ensures n != 0 ==> forall k :: j <= k < n - 1 ==> s[k] != '>' && s[k] != '\n'
    ensures n == 0 ==> forall k :: j <= k < |s| && s[k] == '>' ==> '\n' in s[j..k]
    decreases |s| - j
  {
    if j == |s| then 0
    else if s[j] == '>' then j + 1
    else if s[j] == '\n' then 0
    else
      var n := TagEnd(s, j + 1);
      assert n == 0 ==> forall k :: j + 1 <= k < |s| && s[k] == '>' ==> s[j..k][1..] == s[j + 1..k];
      n
  }

  /** Length of a match of `<.*?>` at the start of s, 0 if there is none. */
  function TagMatch(s: string): (n: nat)
    ensures n <= |s|
    ensures n != 0 ==> 2 <= n && s[0] == '<' && s[n - 1] == '>' && '>' !in s[1..n - 1] && '\n' !in s[1..n - 1]
    ensures n == 0 ==> s == [] || s[0] != '<' || forall k :: 1 <= k < |s| && s[k] == '>' ==> '\n' in s[1..k]
  {
    if |s| > 0 && s[0] == '<' then TagEnd(s, 1) else 0
  }

  /** Length of a match of `p\S+` at the start of s (`http\S+`, `www\.\S+`), 0 if there is none. */
  function PrefixedRunMatch(s: string, p: string): (n: nat)
    ensures n <= |s|
    ensures n != 0 ==> |p| < n && s[..|p|] == p && forall i :: |p| <= i < n ==> !IsSpace(s[i])
    ensures n != 0 ==> n == |s| || IsSpace(s[n])
    ensures n == 0 ==> |s| <= |p| || s[..|p|] != p || IsSpace(s[|p|])
  {
    if |p| < |s| && s[..|p|] == p && !IsSpace(s[|p|]) then |p| + NonSpaceRun(s[|p|..]) else 0
  }

  /**
   * Length of a match of `\S+@\S+` at the start of s, 0 if there is none. The
   * match spans the whole run of non-whitespace, provided that run has an '@'
   * with at least one character before it and one after it.
   */
  function EmailMatch(s: string): (n: nat)
    ensures n <= |s|
    ensures n != 0 ==> n == NonSpaceRun(s) && exists k :: 0 < k < n - 1 && s[k] == '@'
    ensures n == 0 ==> forall k :: 0 < k < NonSpaceRun(s) - 1 ==> s[k] != '@'
  {
    var e := NonSpaceRun(s);
    if e >= 3 && '@' in s[1..e - 1] then
      assert exists k :: 0 < k < e - 1 && s[k] == '@' by {
        var m :| 0 <= m < |s[1..e - 1]| && s[1..e - 1][m] == '@';
        assert s[m + 1] == '@';
      }
      e
    else
      assert forall k :: 0 < k < e - 1 ==> s[k] == s[1..e - 1][k - 1];
      0
  }

  /**
   * Length of the regular expression's match at the start of s, 0 if there is
   * none: the four alternatives are tried in order and the first that matches wins.
   */
  function MatchLength(s: string): (n: nat)
    ensures n <= |s|
    ensures n == 0 <==>
      TagMatch(s) == 0 && PrefixedRunMatch(s, "http") == 0 && PrefixedRunMatch(s, "www.") == 0 && EmailMatch(s) == 0
    ensures TagMatch(s) != 0 ==> n == TagMatch(s)
    ensures n == TagMatch(s) || n == PrefixedRunMatch(s, "http") || n == PrefixedRunMatch(s, "www.") || n == EmailMatch(s)
  {
    var tag := TagMatch(s);
    if tag != 0 then tag
    else
      var http := PrefixedRunMatch(s, "http");
      if http != 0 then http
      else
        var www := PrefixedRunMatch(s, "www.");
        if www != 0 then www
        else EmailMatch(s)
  }

  /**
   * `re.sub` with an empty replacement: scan left to right, delete each match
   * and resume after it, keep a character where no match starts.
   * It only ever deletes characters.
   */
  function StripMarkup(s: string): (r: string)
    ensures multiset(r) <= multiset(s)
    decreases |s|
  {
    if s == [] then []
    else
      var m := MatchLength(s);
      SuffixMultiset(s, if m != 0 then m else 1);
      if m != 0 then StripMarkup(s[m..])
      else [s[0]] + StripMarkup(s[1..])
  }

  /** Dropping a prefix of s leaves a sub-multiset; s is its first character and the rest. */
  lemma SuffixMultiset(s: string, m: nat)
    requires 1 <= m <= |s|
    ensures multiset(s[m..]) <= multiset(s)
    ensures multiset(s) == multiset{s[0]} + multiset(s[1..])
  {
    assert s == s[..m] + s[m..];
    assert s == [s[0]] + s[1..];
  }

  // ---------------------------------------------------------------------
  // Steps 3 and 4: punctuation and non-ASCII characters
  // ---------------------------------------------------------------------

  /** `text.translate(str.maketrans("", "", string.punctuation))`. */
  function RemovePunctuation(s: string): string {
    if s == [] then []
    else if IsPunctuation(s[0]) then RemovePunctuation(s[1..])
    else [s[0]] + RemovePunctuation(s[1..])
  }

  /** `text.encode("ascii", errors="ignore").decode()`. */
  function KeepAscii(s: string): string {
    if s == [] then []
    else if IsAscii(s[0]) then [s[0]] + KeepAscii(s[1..])
    else KeepAscii(s[1..])
  }

  // ---------------------------------------------------------------------
  // Step 5: split, drop stopwords, join
  // ---------------------------------------------------------------------

  /** A token of `str.split()`: non-empty, without whitespace. */
  predicate IsToken(w: string) {
    |w| > 0 && forall i :: 0 <= i < |w| ==> !IsSpace(w[i])
  }

  /** The characters of s that are not whitespace, in order. */
  function NonSpace(s: string): string {
    if s == [] then []
    else if IsSpace(s[0]) then NonSpace(s[1..])
    else [s[0]] + NonSpace(s[1..])
  }

  /** The words of ws written one after the other. */
  function Concat(ws: seq<string>): string {
    if ws == [] then [] else ws[0] + Concat(ws[1..])
  }

  /** A run of non-whitespace starts at index i of s. */
  predicate RunStart(s: string, i: int) {
    0 <= i < |s| && !IsSpace(s[i]) && (i == 0 || IsSpace(s[i - 1]))
  }

  /** The run of non-whitespace that starts at index i of s. */
  function RunAt(s: string, i: nat): string
    requires i <= |s|
  {
    s[i..][..NonSpaceRun(s[i..])]
  }

  /**
   * `str.split()` without arguments: the maximal runs of non-whitespace, in
   * order. Every run of s is a token, and the tokens hold exactly the
   * non-whitespace characters of s, in order.
   */
  function Split(s: string): (ws: seq<string>)
    ensures forall w :: w in ws ==> IsToken(w)
    ensures forall w, c :: w in ws && c in w ==> c in s
    ensures forall i :: RunStart(s, i) ==> RunAt(s, i) in ws
    ensures Concat(ws) == NonSpace(s)
    decreases |s|
  {
    if s == [] then []
    else if IsSpace(s[0]) then
      ShiftRuns(s, 1);
      Split(s[1..])
    else
      var n := NonSpaceRun(s);
      ShiftRuns(s, n);
      NonSpaceOfRun(s, n);
      [s[..n]] + Split(s[n..])
  }

  /**
   * When s[m - 1] is whitespace or ends the first run, the runs of s from
   * index m on are the runs of s[m..].
   */
  lemma ShiftRuns(s: string, m: nat)
    requires 1 <= m <= |s|
    requires IsSpace(s[m - 1]) || m == NonSpaceRun(s)
    ensures forall i :: m <= i < |s| && RunStart(s, i) ==> RunStart(s[m..], i - m) && RunAt(s, i) == RunAt(s[m..], i - m)
  {
    forall i | m <= i < |s| && RunStart(s, i)
      ensures RunStart(s[m..], i - m) && RunAt(s, i) == RunAt(s[m..], i - m)
    {
      ShiftRunAt(s, m, i);
    }
  }

  /** ShiftRuns at one index, in both directions. */
  lemma ShiftRunAt(s: string, m: nat, i: int)
    requires 1 <= m <= i < |s|
    requires IsSpace(s[m - 1]) || m == NonSpaceRun(s)
    ensures RunStart(s, i) <==> RunStart(s[m..], i - m)
    ensures RunAt(s, i) == RunAt(s[m..], i - m)
  {
    ShiftRunStart(s, m, i);
    assert s[m..][i - m..] == s[i..];
  }

  /** A run starts at index i of s exactly when one starts at index i - m of s[m..]. */
  lemma ShiftRunStart(s: string, m: nat, i: int)
    requires 1 <= m <= i < |s|
    requires IsSpace(s[m - 1]) || m == NonSpaceRun(s)
    ensures RunStart(s, i) <==> RunStart(s[m..], i - m)
  {
    var rest, j := s[m..], i - m;
    assert rest[j] == s[i];
    if j > 0 {
      assert rest[j - 1] == s[i - 1];
    } else if !IsSpace(s[m - 1]) {
      assert IsSpace(s[m]);
    }
  }

  /** Where the tokens of `str.split()` start, from left to right (RunStartsExact). */
  function RunStarts(s: string): (starts: seq<nat>)
    ensures forall k :: 0 <= k < |starts| ==> starts[k] < |s|
    decreases |s|
  {
    if s == [] then []
    else if IsSpace(s[0]) then Shift(RunStarts(s[1..]), 1)
    else [0] + Shift(RunStarts(s[NonSpaceRun(s)..]), NonSpaceRun(s))
  }

  /** RunStarts lists, from left to right, exactly the starts of the runs of non-whitespace. */
  lemma {:induction false} RunStartsExact(s: string)
    ensures Increasing(RunStarts(s))
    ensures forall i: int :: i in RunStarts(s) <==> RunStart(s, i)
    decreases |s|
  {
    if s != [] {
      var m := if IsSpace(s[0]) then 1 else NonSpaceRun(s);
      var rest := RunStarts(s[m..]);
      RunStartsExact(s[m..]);
      ShiftMembers(rest, m);
      assert Increasing(Shift(rest, m));
      forall i: int ensures i in RunStarts(s) <==> RunStart(s, i) {
        if 0 < i < m {
          assert !IsSpace(s[i - 1]);
        } else if m <= i < |s| {
          ShiftRunAt(s, m, i);
        }
      }
    }
  }

  /**
   * The tokens of `str.split()` are the runs at the RunStarts, one token per
   * start and in the same order: no run is reported twice, cut short or out
   * of place.
   */
  lemma {:induction false} SplitAtStarts(s: string)
    ensures |Split(s)| == |RunStarts(s)|
    ensures forall k :: 0 <= k < |RunStarts(s)| ==> Split(s)[k] == RunAt(s, RunStarts(s)[k])
    decreases |s|
  {
    if s != [] {
      var m := if IsSpace(s[0]) then 1 else NonSpaceRun(s);
      var head := if IsSpace(s[0]) then [] else [s[..m]];
      var headStarts := if IsSpace(s[0]) then [] else [0];
      assert Split(s) == head + Split(s[m..]);
      assert RunStarts(s) == headStarts + Shift(RunStarts(s[m..]), m);
      assert s[0..] == s;
      SplitAtStarts(s[m..]);
      ShiftedRuns(s, m);
      RunsAtStarts(s, head, headStarts, Split(s[m..]), Shift(RunStarts(s[m..]), m));
    }
  }

  /** The runs that start at the positions of s[m..] are the runs of s at those positions moved m places. */
  lemma ShiftedRuns(s: string, m: nat)
    requires 1 <= m <= |s|
    ensures forall k :: 0 <= k < |RunStarts(s[m..])| ==>
      RunAt(s[m..], RunStarts(s[m..])[k]) == RunAt(s, Shift(RunStarts(s[m..]), m)[k])
  {
    var starts := RunStarts(s[m..]);
    forall k | 0 <= k < |starts|
      ensures RunAt(s[m..], starts[k]) == RunAt(s, Shift(starts, m)[k])
    {
      var i := starts[k] + m;
      assert s[m..][i - m..] == s[i..];
    }
  }

  /** Runs at their starts, put side by side: the pairing survives concatenation. */
  lemma RunsAtStarts(s: string, ws: seq<string>, starts: seq<nat>, ws': seq<string>, starts': seq<nat>)
    requires |ws| == |starts| && |ws'| == |starts'|
    requires forall k :: 0 <= k < |starts| ==> starts[k] <= |s| && ws[k] == RunAt(s, starts[k])
    requires forall k :: 0 <= k < |starts'| ==> starts'[k] <= |s| && ws'[k] == RunAt(s, starts'[k])
    ensures |ws + ws'| == |starts + starts'|
    ensures forall k :: 0 <= k < |starts + starts'| ==> (ws + ws')[k] == RunAt(s, (starts + starts')[k])
  {
    forall k | 0 <= k < |starts + starts'| ensures (ws + ws')[k] == RunAt(s, (starts + starts')[k]) {
      if k >= |starts| {
        assert (ws + ws')[k] == ws'[k - |ws|];
      }
    }
  }

  /** The first run of s followed by the rest: its non-whitespace characters are the run, then the rest's. */
  lemma {:induction false} NonSpaceOfRun(s: string, n: nat)
    requires n == NonSpaceRun(s)
    ensures NonSpace(s) == s[..n] + NonSpace(s[n..])
  {
    if n > 0 {
      NonSpaceOfRun(s[1..], n - 1);
      assert s[1..][..n - 1] == s[1..n];
      assert s[1..][n - 1..] == s[n..];
      assert s[..n] == [s[0]] + s[1..n];
    }
  }

  /** The list comprehension `[word for word in words if word not in stop_words]`. */
  function RemoveStopwords(ws: seq<string>, stop: set<string>): seq<string> {
    if ws == [] then []
    else if ws[0] in stop then RemoveStopwords(ws[1..], stop)
    else [ws[0]] + RemoveStopwords(ws[1..], stop)
  }

  /** `" ".join(ws)`. */
  function Join(ws: seq<string>): string {
    if ws == [] then ""
    else if |ws| == 1 then ws[0]
    else ws[0] + " " + Join(ws[1..])
  }

  /** The punctuation step keeps exactly the characters that are not punctuation. */
  lemma {:induction false} RemovePunctuationChars(s: string)
    ensures forall c :: c in RemovePunctuation(s) <==> c in s && !IsPunctuation(c)
  {
    if s != [] {
      RemovePunctuationChars(s[1..]);
      assert forall c :: c in s <==> c == s[0] || c in s[1..];
    }
  }

  /** The ASCII step keeps exactly the characters below code point 128. */
  lemma {:induction false} KeepAsciiChars(s: string)
    ensures forall c :: c in KeepAscii(s) <==> c in s && IsAscii(c)
  {
    if s != [] {
      KeepAsciiChars(s[1..]);
      assert forall c :: c in s <==> c == s[0] || c in s[1..];
    }
  }

  /** The stopword step keeps exactly the words that are not stopwords. */
  lemma {:induction false} RemoveStopwordsMembers(ws: seq<string>, stop: set<string>)
    ensures forall w :: w in RemoveStopwords(ws, stop) <==> w in ws && w !in stop
  {
    if ws != [] {
      RemoveStopwordsMembers(ws[1..], stop);
      assert forall w :: w in ws <==> w == ws[0] || w in ws[1..];
    }
  }

  /** Steps 1 to 4: the text that is split into tokens. */
  function CleanedText(text: string): string {
    KeepAscii(RemovePunctuation(StripMarkup(ToLower(text))))
  }

  /** `preprocess_text(text)` for the stopword set `stop`. */
  function Preprocess(text: string, stop: set<string>): string {
    Join(RemoveStopwords(Split(CleanedText(text)), stop))
  }

  /** No whitespace but single ' ' characters, each between two non-space characters. */
  predicate SingleSpaced(s: string) {
    forall i :: 0 <= i < |s| && IsSpace(s[i]) ==>
      s[i] == ' ' && 0 < i < |s| - 1 && !IsSpace(s[i - 1]) && !IsSpace(s[i + 1])
  }

  // ---------------------------------------------------------------------
  // Lemmas about splitting and joining
  // ---------------------------------------------------------------------

  /** The non-whitespace run of a token followed by whitespace (or nothing) is the token. */
  lemma {:induction false} NonSpaceRunOfToken(w: string, t: string)
    requires forall i :: 0 <= i < |w| ==> !IsSpace(w[i])
    requires t == [] || IsSpace(t[0])
    ensures NonSpaceRun(w + t) == |w|
  {
    if w != [] {
      assert (w + t)[1..] == w[1..] + t;
      NonSpaceRunOfToken(w[1..], t);
    }
  }

  /** Splitting a token followed by a space and more text yields the token, then the rest's tokens. */
  lemma SplitTokenThenRest(w: string, rest: string)
    requires IsToken(w)
    ensures Split(w + " " + rest) == [w] + Split(rest)
  {
    var s := w + " " + rest;
    assert s == w + (" " + rest);
    NonSpaceRunOfToken(w, " " + rest);
    assert s[..|w|] == w;
    assert s[|w|..] == " " + rest;
    assert (" " + rest)[1..] == rest;
  }

  /** A single token splits to itself. */
  lemma SplitToken(w: string)
    requires IsToken(w)
    ensures Split(w) == [w]
  {
    NonSpaceRunOfToken(w, []);
    assert w + [] == w;
    assert w[..|w|] == w;
  }

  /** Joining tokens with single spaces and splitting again gives the tokens back. */
  lemma {:induction false} SplitJoin(ws: seq<string>)
    requires forall w :: w in ws ==> IsToken(w)
    ensures Split(Join(ws)) == ws
  {
    if |ws| == 1 {
      SplitToken(ws[0]);
    } else if |ws| > 1 {
      SplitJoin(ws[1..]);
      SplitTokenThenRest(ws[0], Join(ws[1..]));
    }
  }

  /** A join of tokens is single-spaced, and when non-empty begins and ends with a non-space. */
  lemma {:induction false} JoinSingleSpaced(ws: seq<string>)
    requires forall w :: w in ws ==> IsToken(w)
    ensures SingleSpaced(Join(ws))
    ensures ws != [] ==> |Join(ws)| > 0 && !IsSpace(Join(ws)[0]) && !IsSpace(Join(ws)[|Join(ws)| - 1])
    ensures ws == [] <==> Join(ws) == ""
  {
    if |ws| == 1 {
      assert ws[0] in ws;
    } else if |ws| > 1 {
      var w, j := ws[0], Join(ws[1..]);
      assert w in ws;
      JoinSingleSpaced(ws[1..]);
      var s := w + " " + j;
      assert Join(ws) == s;
      forall i | 0 <= i < |s|
        ensures IsSpace(s[i]) ==> s[i] == ' ' && 0 < i < |s| - 1 && !IsSpace(s[i - 1]) && !IsSpace(s[i + 1])
      {
        if i < |w| {
          assert s[i] == w[i];
        } else if i == |w| {
          assert s[i - 1] == w[|w| - 1];
          assert s[i + 1] == j[0];
        } else if i == |w| + 1 {
          assert s[i] == j[0];
        } else {
          assert s[i] == j[i - |w| - 1];
          assert s[i - 1] == j[i - |w| - 2];
          if i < |s| - 1 {
            assert s[i + 1] == j[i - |w|];
          }
        }
      }
      assert s[0] == w[0];
      assert s[|s| - 1] == j[|j| - 1];
    }
  }

  /** Every character of a join is a space or a character of one of the joined words. */
  lemma {:induction false} JoinChars(ws: seq<string>, s: string)
    requires forall w, c :: w in ws && c in w ==> c in s
    ensures forall c :: c in Join(ws) ==> c == ' ' || c in s
  {
    if |ws| > 1 {
      JoinChars(ws[1..], s);
      assert ws[0] in ws;
    } else if |ws| == 1 {
      assert ws[0] in ws;
    }
  }

  // ---------------------------------------------------------------------
  // Properties of preprocess_text
  // ---------------------------------------------------------------------

  /** Each character of the cleaned text is a lowered, non-punctuation, ASCII character. */
  lemma CleanedTextChars(text: string)
    ensures forall c :: c in CleanedText(text) ==> !IsAsciiUpper(c) && !IsPunctuation(c) && IsAscii(c)
  {
    var lowered := ToLower(text);
    var stripped := StripMarkup(lowered);
    forall c | c in stripped ensures c in lowered {
      assert multiset(stripped)[c] > 0;
    }
    RemovePunctuationChars(stripped);
    KeepAsciiChars(RemovePunctuation(stripped));
  }

  /** Each character of the output is a space or a character of the cleaned text. */
  lemma PreprocessCharsFromCleaned(text: string, stop: set<string>)
    ensures forall c :: c in Preprocess(text, stop) ==> c == ' ' || c in CleanedText(text)
  {
    RemoveStopwordsMembers(Split(CleanedText(text)), stop);
    JoinChars(RemoveStopwords(Split(CleanedText(text)), stop), CleanedText(text));
  }

  /** The output contains no ASCII capital letter. */
  lemma PreprocessLowerCase(text: string, stop: set<string>)
    ensures forall c :: c in Preprocess(text, stop) ==> !IsAsciiUpper(c)
  {
    PreprocessCharsFromCleaned(text, stop);
    CleanedTextChars(text);
  }

  /** The output contains none of the 32 punctuation characters. */
  lemma PreprocessNoPunctuation(text: string, stop: set<string>)
    ensures forall c :: c in Preprocess(text, stop) ==> !IsPunctuation(c)
  {
    PreprocessCharsFromCleaned(text, stop);
    CleanedTextChars(text);
  }

  /** Every character of the output has a code point below 128. */
  lemma PreprocessAscii(text: string, stop: set<string>)
    ensures forall c :: c in Preprocess(text, stop) ==> c as int < 128
  {
    PreprocessCharsFromCleaned(text, stop);
    CleanedTextChars(text);
  }

  /**
   * The output's tokens are exactly the cleaned text's tokens that are not
   * stopwords, in their original order; so no output token is a stopword.
   */
  lemma PreprocessTokens(text: string, stop: set<string>)
    ensures Split(Preprocess(text, stop)) == RemoveStopwords(Split(CleanedText(text)), stop)
    ensures forall w :: w in Split(Preprocess(text, stop)) ==> w !in stop
  {
    RemoveStopwordsMembers(Split(CleanedText(text)), stop);
    SplitJoin(RemoveStopwords(Split(CleanedText(text)), stop));
  }

  /**
   * The output has no leading or trailing whitespace, no empty token, and its
   * tokens are separated by exactly one ' '.
   */
  lemma PreprocessSingleSpaced(text: string, stop: set<string>)
    ensures SingleSpaced(Preprocess(text, stop))
    ensures Preprocess(text, stop) != "" ==>
      !IsSpace(Preprocess(text, stop)[0]) && !IsSpace(Preprocess(text, stop)[|Preprocess(text, stop)| - 1])
  {
    RemoveStopwordsMembers(Split(CleanedText(text)), stop);
    JoinSingleSpaced(RemoveStopwords(Split(CleanedText(text)), stop));
  }

  /** The output is empty exactly when every token of the cleaned text is a stopword. */
  lemma PreprocessEmpty(text: string, stop: set<string>)
    ensures Preprocess(text, stop) == "" <==> forall w :: w in Split(CleanedText(text)) ==> w in stop
  {
    var kept := RemoveStopwords(Split(CleanedText(text)), stop);
    RemoveStopwordsMembers(Split(CleanedText(text)), stop);
    JoinSingleSpaced(kept);
    if kept != [] {
      assert kept[0] in kept;
    }
  }

  /** p occurs in s at index i. */
  predicate OccursAt(s: string, i: nat, p: string) {
    i + |p| <= |s| && s[i..i + |p|] == p
  }

  /** A text with no '<', no '@' and no "http" or "www." in it is left unchanged by the regular expression step. */
  lemma {:induction false} StripMarkupPlain(s: string)
    requires '<' !in s && '@' !in s
    requires forall i :: 0 <= i < |s| ==> !OccursAt(s, i, "http") && !OccursAt(s, i, "www.")
    ensures StripMarkup(s) == s
  {
    if s != [] {
      assert TagMatch(s) == 0;
      assert !OccursAt(s, 0, "http") && !OccursAt(s, 0, "www.");
      if |s| > 4 {
        assert s[0..4] == s[..4];
      }
      assert PrefixedRunMatch(s, "http") == 0;
      assert PrefixedRunMatch(s, "www.") == 0;
      assert EmailMatch(s) == 0;
      assert MatchLength(s) == 0;
      forall i | 0 <= i < |s[1..]|
        ensures !OccursAt(s[1..], i, "http") && !OccursAt(s[1..], i, "www.")
      {
        assert !OccursAt(s, i + 1, "http") && !OccursAt(s, i + 1, "www.");
        if i + 4 <= |s[1..]| {
          assert s[1..][i..i + 4] == s[i + 1..i + 5];
        }
      }
      StripMarkupPlain(s[1..]);
    }
  }

  /** Deleting punctuation distributes over concatenation. */
  lemma {:induction false} RemovePunctuationAppend(a: string, b: string)
    ensures RemovePunctuation(a + b) == RemovePunctuation(a) + RemovePunctuation(b)
  {
    if a != [] {
      assert (a + b)[0] == a[0];
      assert (a + b)[1..] == a[1..] + b;
      RemovePunctuationAppend(a[1..], b);
      if !IsPunctuation(a[0]) {
        calc {
          RemovePunctuation(a + b);
          [a[0]] + RemovePunctuation(a[1..] + b);
          [a[0]] + (RemovePunctuation(a[1..]) + RemovePunctuation(b));
          ([a[0]] + RemovePunctuation(a[1..])) + RemovePunctuation(b);
        }
      }
    } else {
      assert a + b == b;
    }
  }

  /** A text without punctuation is left unchanged by the punctuation step. */
  lemma {:induction false} RemovePunctuationNone(s: string)
    requires forall i :: 0 <= i < |s| ==> !IsPunctuation(s[i])
    ensures RemovePunctuation(s) == s
  {
    if s != [] {
      RemovePunctuationNone(s[1..]);
    }
  }

  /** An ASCII text is left unchanged by the ASCII step. */
  lemma {:induction false} KeepAsciiAll(s: string)
    requires forall i :: 0 <= i < |s| ==> IsAscii(s[i])
    ensures KeepAscii(s) == s
  {
    if s != [] {
      KeepAsciiAll(s[1..]);
    }
  }

  /** A string of lower-case ASCII letters. */
  predicate IsLowerWord(w: string) {
    forall i :: 0 <= i < |w| ==> 'a' <= w[i] <= 'z'
  }

  /** Nothing in "ht!tp" + rest matches the regular expression when rest is a lower-case word without 'h'. */
  lemma StripMarkupFirstPass(rest: string)
    requires IsLowerWord(rest) && 'h' !in rest
    ensures StripMarkup("ht!tp" + rest) == "ht!tp" + rest
  {
    var s := "ht!tp" + rest;
    forall i | 0 <= i < |s| ensures !OccursAt(s, i, "http") && !OccursAt(s, i, "www.") {
      if i >= 5 {
        assert s[i] == rest[i - 5];
      }
      if i + 4 <= |s| {
        assert s[i..i + 4][0] == s[i] && s[i..i + 4][2] == s[i + 2] && s[i..i + 4][3] == s[i + 3];
        if i + 3 >= 5 {
          assert s[i + 3] == rest[i - 2];
        }
      }
    }
    forall k | 0 <= k < |s| ensures s[k] != '<' && s[k] != '@' {
      if k >= 5 {
        assert s[k] == rest[k - 5];
      }
    }
    StripMarkupPlain(s);
  }

  /** Deleting the punctuation of "ht!tp" + rest leaves "http" + rest. */
  lemma RemovePunctuationFirstPass(rest: string)
    requires IsLowerWord(rest)
    ensures RemovePunctuation("ht!tp" + rest) == "http" + rest
  {
    calc {
      RemovePunctuation("ht!tp" + rest);
      { assert "ht!tp" + rest == "ht" + ("!" + ("tp" + rest)); }
      RemovePunctuation("ht" + ("!" + ("tp" + rest)));
      { RemovePunctuationAppend("ht", "!" + ("tp" + rest)); RemovePunctuationAppend("!", "tp" + rest); }
      RemovePunctuation("ht") + (RemovePunctuation("!") + RemovePunctuation("tp" + rest));
      { RemovePunctuationNone("ht"); RemovePunctuationNone("tp" + rest); }
      "ht" + (RemovePunctuation("!") + ("tp" + rest));
      { assert RemovePunctuation("!") == ""; }
      "ht" + ("" + ("tp" + rest));
      { assert "ht" + ("" + ("tp" + rest)) == "http" + rest; }
      "http" + rest;
    }
  }

  /** Lower-casing leaves "ht!tp" + rest as it is. */
  lemma LowerCaseFirstPass(rest: string)
    requires IsLowerWord(rest)
    ensures ToLower("ht!tp" + rest) == "ht!tp" + rest
  {
    var s := "ht!tp" + rest;
    forall i | 0 <= i < |s|
      ensures ToLower(s)[i] == s[i]
    {
      if i >= 5 {
        assert s[i] == rest[i - 5];
      }
    }
  }

  /** The first pass over "ht!tp" + rest: nothing matches the regular expression, then '!' goes. */
  lemma CleanedFirstPass(rest: string)
    requires IsLowerWord(rest) && 'h' !in rest
    ensures CleanedText("ht!tp" + rest) == "http" + rest
  {
    LowerCaseFirstPass(rest);
    StripMarkupFirstPass(rest);
    RemovePunctuationFirstPass(rest);
    KeepAsciiFirstPass(rest);
  }

  /** "http" + rest is all ASCII, so the ASCII step keeps it. */
  lemma KeepAsciiFirstPass(rest: string)
    requires IsLowerWord(rest)
    ensures KeepAscii("http" + rest) == "http" + rest
  {
    var s := "http" + rest;
    forall i | 0 <= i < |s|
      ensures IsAscii(s[i])
    {
      if i >= 4 {
        assert s[i] == rest[i - 4];
      }
    }
    KeepAsciiAll(s);
  }

  /** `http\S+` matches all of "http" + rest. */
  lemma StripMarkupSecondPass(rest: string)
    requires IsLowerWord(rest) && rest != []
    ensures StripMarkup("http" + rest) == ""
  {
    var t := "http" + rest;
    assert t[..4] == "http";
    assert t[4..] == rest;
    NonSpaceRunOfToken(rest, []);
    assert rest + [] == rest;
    assert MatchLength(t) == |t|;
    assert StripMarkup(t) == StripMarkup(t[|t|..]);
  }

  /** The second pass over "http" + rest deletes it as a URL. */
  lemma CleanedSecondPass(rest: string)
    requires IsLowerWord(rest) && rest != []
    ensures CleanedText("http" + rest) == ""
  {
    assert ToLower("http" + rest) == "http" + rest;
    StripMarkupSecondPass(rest);
  }

  /**
   * preprocess_text is not idempotent: "ht!tp" followed by a lower-case word
   * without 'h' (say "ht!tpfoo") cleans to "http" + the word, because the URL pattern
   * cannot match while the '!' is there; a second pass deletes it as a URL.
   */
  lemma PreprocessNotIdempotent(rest: string, stop: set<string>)
    requires IsLowerWord(rest) && rest != [] && 'h' !in rest
    requires "http" + rest !in stop
    ensures Preprocess("ht!tp" + rest, stop) == "http" + rest
    ensures Preprocess(Preprocess("ht!tp" + rest, stop), stop) == ""
  {
    var w := "http" + rest;
    CleanedFirstPass(rest);
    assert IsToken(w);
    SplitToken(w);
    assert RemoveStopwords([w], stop) == [w];
    assert Preprocess("ht!tp" + rest, stop) == Join([w]) == w;
    CleanedSecondPass(rest);
    assert Split("") == [];
  }

  /** The instance "ht!tpfoo": cleaned once it is "httpfoo", cleaned twice it is "". */
  lemma PreprocessNotIdempotentExample(stop: set<string>)
    requires "httpfoo" !in stop
    ensures Preprocess("ht!tpfoo", stop) == "httpfoo"
    ensures Preprocess(Preprocess("ht!tpfoo", stop), stop) == ""
  {
    var rest := "foo";
    assert "ht!tp" + rest == "ht!tpfoo";
    assert "http" + rest == "httpfoo";
    PreprocessNotIdempotent(rest, stop);
  }
}
