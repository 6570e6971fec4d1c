/** `calculateReadingTime` (backend/controllers/Blog.controller.js): strip
    every `<...>` span, split on runs of white space, keep the non-empty
    pieces, and charge one minute per started 200 words, never less than one. */
module ReadingTime {
  import opened Wrappers
  import opened Text
  import opened Seqs

  const WordsPerMinute := 200

  /** No `<` is followed, anywhere later, by a `>`: nothing `/<[^>]*>/` matches. */
  predicate NoTag(s: string) {
    forall i, j :: 0 <= i < j < |s| && s[i] == '<' ==> s[j] != '>'
  }

  /** The text after the first `>` of `s`, when there is one. */
  function AfterClose(s: string): (r: Option<string>)
    ensures r.Some? ==> |r.value| < |s|
  {
    if s == [] then None
    else if s[0] == '>' then Some(s[1..])
    else AfterClose(s[1..])
  }

  /** A `>` is found exactly when there is one, and what follows it adds
      no character. */
  lemma {:induction false} AfterCloseFound(s: string)
    ensures AfterClose(s).None? <==> '>' !in s
    ensures AfterClose(s).Some? ==> forall c :: c in AfterClose(s).value ==> c in s
  {
    if s != [] && s[0] != '>' {
      AfterCloseFound(s[1..]);
      assert s == [s[0]] + s[1..];
    }
  }

  /** What follows the first `>` is returned. */
  lemma {:induction false} CloseAfter(t: string, b: string)
    requires '>' !in t
    ensures AfterClose(t + ['>'] + b) == Some(b)
  {
    if t != [] {
      assert (t + ['>'] + b)[1..] == t[1..] + ['>'] + b;
      assert '>' !in t[1..];
      CloseAfter(t[1..], b);
    }
  }

  /** `s.replace(/<[^>]*>/g, "")`: at each `<` that some later `>` closes,
      the span up to the first such `>` is removed; an unclosed `<` stays. */
  function StripTags(s: string): (r: string)
    ensures |r| <= |s|
    decreases |s|
  {
    if s == [] then []
    else if s[0] == '<' && AfterClose(s[1..]).Some? then
      StripTags(AfterClose(s[1..]).value)
    else
      [s[0]] + StripTags(s[1..])
  }

  /** Without any `>`, no `<` is closed, so every `<` stays and the text
      is unchanged. */
  lemma {:induction false} NoCloseUnchanged(s: string)
    requires '>' !in s
    ensures StripTags(s) == s
    decreases |s|
  {
    if s != [] {
      assert '>' !in s[1..];
      AfterCloseFound(s[1..]);
      NoCloseUnchanged(s[1..]);
      assert s == [s[0]] + s[1..];
    }
  }

  /** Stripping adds no character and leaves no tag behind. */
  lemma {:induction false} StripTagsLeavesNoTag(s: string)
    ensures forall c :: c in StripTags(s) ==> c in s
    ensures NoTag(StripTags(s))
    decreases |s|
  {
    if s == [] {
    } else if s[0] == '<' && AfterClose(s[1..]).Some? {
      AfterCloseFound(s[1..]);
      StripTagsLeavesNoTag(AfterClose(s[1..]).value);
      assert forall c :: c in s[1..] ==> c in s;
    } else {
      StripTagsLeavesNoTag(s[1..]);
      AfterCloseFound(s[1..]);
      PrependKeepsNoTag(s[0], StripTags(s[1..]), s[1..]);
    }
  }

  lemma PrependKeepsNoTag(c: char, rest: string, tail: string)
    requires NoTag(rest) && forall d :: d in rest ==> d in tail
    requires c == '<' ==> '>' !in tail
    ensures NoTag([c] + rest)
  {
    var r := [c] + rest;
    forall i, j | 0 <= i < j < |r| && r[i] == '<'
      ensures r[j] != '>'
    {
      assert r[j] == rest[j - 1];
      if i > 0 {
        assert r[i] == rest[i - 1];
      } else {
        assert rest[j - 1] in tail;
      }
    }
  }

  /** Text without a `<` comes through unchanged. */
  lemma {:induction false} PlainTextUnchanged(s: string)
    requires '<' !in s
    ensures StripTags(s) == s
  {
    if s != [] {
      assert '<' !in s[1..];
      PlainTextUnchanged(s[1..]);
    }
  }

  /** A closed tag after plain text disappears completely, and what follows
      it is stripped on its own. */
  lemma {:induction false} TagRemoved(a: string, t: string, b: string)
    requires '<' !in a && '>' !in t
    ensures StripTags(a + ['<'] + t + ['>'] + b) == a + StripTags(b)
    decreases |a|
  {
    if a == [] {
      assert a + ['<'] + t + ['>'] + b == ['<'] + (t + ['>'] + b);
      CloseAfter(t, b);
    } else {
      var tail := a[1..] + ['<'] + t + ['>'] + b;
      assert a + ['<'] + t + ['>'] + b == [a[0]] + tail;
      PlainStep(a[0], tail);
      assert '<' !in a[1..];
      TagRemoved(a[1..], t, b);
    }
  }

  /** A character other than `<` is kept as it is. */
  lemma PlainStep(c: char, rest: string)
    requires c != '<'
    ensures StripTags([c] + rest) == [c] + StripTags(rest)
  {
    assert ([c] + rest)[1..] == rest;
  }

  /** `s.split(/\s+/)`: the pieces between maximal runs of white space,
      with an empty first or last piece when `s` starts or ends with one. */
  function Pieces(s: string): (r: seq<string>)
    ensures |r| >= 1
    decreases |s|
  {
    if s == [] then [[]]
    else if IsSpace(s[0]) then [[]] + Pieces(TrimStart(s[1..]))
    else
      var p := Pieces(s[1..]);
      [[s[0]] + p[0]] + p[1..]
  }

  function NonEmpty(w: string): bool {
    |w| > 0
  }

  /** `text.split(/\s+/).filter((word) => word.length > 0).length`. */
  function WordCount(s: string): nat {
    |Filter(Pieces(s), NonEmpty)|
  }

  predicate NoSpace(w: string) {
    forall k :: 0 <= k < |w| ==> !IsSpace(w[k])
  }

  /** `Math.ceil(words / 200)` raised to one. */
  function Minutes(words: nat): (r: nat)
    ensures r >= 1
    ensures words == 0 ==> r == 1
    ensures words > 0 ==> (r - 1) * WordsPerMinute < words <= r * WordsPerMinute
  {
    var m := (words + WordsPerMinute - 1) / WordsPerMinute;
    if m < 1 then 1 else m
  }

  /** `calculateReadingTime(content)`: one minute for empty content. */
  function CalculateReadingTime(content: string): (r: nat)
    ensures r >= 1
    ensures content == "" || WordCount(StripTags(content)) == 0 ==> r == 1
    ensures WordCount(StripTags(content)) > 0 ==>
              (r - 1) * WordsPerMinute < WordCount(StripTags(content)) <= r * WordsPerMinute
  {
    if content == "" then 1 else Minutes(WordCount(StripTags(content)))
  }

  /** A string of nothing but white space has no words, and a string with
      any other character has at least one. */
  lemma {:induction false} NoWordsIffBlank(s: string)
    ensures WordCount(s) == 0 <==> AllSpace(s)
    decreases |s|
  {
    if s == [] {
    } else if IsSpace(s[0]) {
      var t := TrimStart(s[1..]);
      NoWordsIffBlank(t);
      WordCountAfterSpace(s);
      TrimStartBlank(s[1..]);
      BlankAfterSpace(s);
      assert t != [] ==> !IsSpace(t[0]);
    } else {
      var p := Pieces(s[1..]);
      assert Pieces(s) == [[s[0]] + p[0]] + p[1..];
      FilterKeepsFirst([s[0]] + p[0], p[1..]);
    }
  }

  /** Leading white space does not change the word count. */
  lemma WordCountAfterSpace(s: string)
    requires s != [] && IsSpace(s[0])
    ensures WordCount(s) == WordCount(TrimStart(s[1..]))
  {
    var p := Pieces(TrimStart(s[1..]));
    assert Pieces(s) == [[]] + p;
    assert Filter([[]] + p, NonEmpty) == Filter(p, NonEmpty);
  }

  /** A non-empty first piece is kept by the filter. */
  lemma FilterKeepsFirst(w: string, rest: seq<string>)
    requires |w| > 0
    ensures |Filter([w] + rest, NonEmpty)| > 0
  {
    assert ([w] + rest)[0] == w;
  }

  lemma TrimStartBlank(u: string)
    ensures AllSpace(u) <==> TrimStart(u) == []
  {
    var r := TrimStart(u);
    if r != [] {
      assert u[|u| - |r|] == r[0];
    } else {
      assert u[..|u|] == u;
    }
  }

  lemma BlankAfterSpace(s: string)
    requires s != [] && IsSpace(s[0])
    ensures AllSpace(s) <==> AllSpace(s[1..])
  {
    assert s == [s[0]] + s[1..];
  }

  /** Words joined by single spaces. */
  function Join(ws: seq<string>): string {
    if ws == [] then []
    else if |ws| == 1 then ws[0]
    else ws[0] + [' '] + Join(ws[1..])
  }

  predicate IsWord(w: string) {
    |w| > 0 && NoSpace(w)
  }

  /** A word glued to the front of `t` joins the first piece of `t`. */
  lemma {:induction false} PiecesAfterWord(w: string, t: string)
    requires NoSpace(w)
    ensures Pieces(w + t) == [w + Pieces(t)[0]] + Pieces(t)[1..]
  {
    if w != [] {
      assert (w + t)[0] == w[0] && (w + t)[1..] == w[1..] + t;
      PiecesAfterWord(w[1..], t);
      assert [w[0]] + (w[1..] + Pieces(t)[0]) == w + Pieces(t)[0];
    } else {
      var p := Pieces(t);
      assert w + t == t && w + p[0] == p[0] && [p[0]] + p[1..] == p;
    }
  }

  /** One space before a word starts a new piece. */
  lemma PiecesAfterSpace(rest: string)
    requires rest == [] || !IsSpace(rest[0])
    ensures Pieces([' '] + rest) == [[]] + Pieces(rest)
  {
    assert ([' '] + rest)[1..] == rest;
  }

  lemma JoinStart(ws: seq<string>)
    requires ws != [] && |ws[0]| > 0
    ensures |Join(ws)| > 0 && Join(ws)[0] == ws[0][0]
  {
    if |ws| > 1 {
      assert Join(ws) == ws[0] + ([' '] + Join(ws[1..]));
    }
  }

  /** A word, one space, then text that starts with a word or is empty:
      the word becomes a piece of its own. */
  lemma PiecesJoinStep(w: string, rest: string)
    requires NoSpace(w)
    requires rest == [] || !IsSpace(rest[0])
    ensures Pieces(w + [' '] + rest) == [w] + Pieces(rest)
  {
    var t := [' '] + rest;
    assert w + [' '] + rest == w + t;
    assert w + [] == w;
    PiecesAfterSpace(rest);
    var p := Pieces(t);
    assert p[0] == [] && p[1..] == Pieces(rest);
    PiecesAfterWord(w, t);
  }

  /** Splitting words joined by single spaces gives the words back. */
  lemma {:induction false} SplitJoin(ws: seq<string>)
    requires ws != []
    requires forall i :: 0 <= i < |ws| ==> IsWord(ws[i])
    ensures Pieces(Join(ws)) == ws
  {
    if |ws| == 1 {
      PiecesAfterWord(ws[0], []);
      assert ws[0] + [] == ws[0];
    } else {
      SplitJoin(ws[1..]);
      assert IsWord(ws[0]) && IsWord(ws[1]);
      JoinStart(ws[1..]);
      PiecesJoinStep(ws[0], Join(ws[1..]));
      assert ws == [ws[0]] + ws[1..];
    }
  }

  /** Keeping the non-empty pieces of non-empty words keeps them all. */
  lemma {:induction false} FilterKeepsWords(ws: seq<string>)
    requires forall i :: 0 <= i < |ws| ==> IsWord(ws[i])
    ensures Filter(ws, NonEmpty) == ws
  {
    if ws != [] {
      FilterKeepsWords(ws[1..]);
    }
  }

  /** A text of `n` words separated by single spaces counts `n` words. */
  lemma JoinedWordsCount(ws: seq<string>)
    requires forall i :: 0 <= i < |ws| ==> IsWord(ws[i])
    ensures WordCount(Join(ws)) == |ws|
  {
    if ws != [] {
      SplitJoin(ws);
      FilterKeepsWords(ws);
    }
  }
}
