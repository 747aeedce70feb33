/** The text transformation of src/exportable-components/RevealText/RevealText.tsx:
    the displayed text is split on single spaces into words, each word becomes
    an inline-block element and each of its characters a `char` span, and the
    spans are scheduled 0.01 apart on the reveal timeline. */
module RevealText {

  import opened Wrappers

  /** `revealTextContent?.fields.text || defaultText`: fetched text wins
      unless it is missing or empty. */
  function DisplayText(fetched: Option<string>, defaultText: string): (r: string)
    ensures r == defaultText || (fetched.Some? && r == fetched.value)
    ensures r == "" ==> defaultText == ""
    ensures fetched.Some? && fetched.value != "" ==> r == fetched.value
  {
    if fetched.Some? && fetched.value != "" then fetched.value else defaultText
  }

  /** `text.split(" ")`: n spaces give n + 1 pieces, consecutive spaces give
      empty pieces, and no piece holds a space. */
  function SplitWords(s: string): (r: seq<string>)
    ensures |r| >= 1
    ensures forall i :: 0 <= i < |r| ==> ' ' !in r[i]
  {
    if |s| == 0 then [""]
    else
      var rest := SplitWords(s[1..]);
      if s[0] == ' ' then [""] + rest
      else [[s[0]] + rest[0]] + rest[1..]
  }

  /** `words.join(" ")`, the inverse of the split. */
  function JoinWords(ws: seq<string>): string {
    if |ws| == 0 then ""
    else if |ws| == 1 then ws[0]
    else ws[0] + " " + JoinWords(ws[1..])
  }

  function CountSpaces(s: string): nat {
    if |s| == 0 then 0 else (if s[0] == ' ' then 1 else 0) + CountSpaces(s[1..])
  }

  /** The text with every `' '` removed. */
  function RemoveSpaces(s: string): string {
    if |s| == 0 then "" else (if s[0] == ' ' then "" else [s[0]]) + RemoveSpaces(s[1..])
  }

  function Flatten(ws: seq<string>): string {
    if |ws| == 0 then "" else ws[0] + Flatten(ws[1..])
  }

  /** Joining the pieces with single spaces gives back the text: the split
      loses nothing and invents nothing. */
  lemma {:induction false} JoinSplit(s: string)
    ensures JoinWords(SplitWords(s)) == s
  {
    if |s| > 0 {
      var rest := SplitWords(s[1..]);
      JoinSplit(s[1..]);
      if s[0] == ' ' {
        assert SplitWords(s) == [""] + rest;
        assert ([""] + rest)[1..] == rest;
        assert s == [s[0]] + s[1..];
      } else {
        var ws := SplitWords(s);
        assert ws == [[s[0]] + rest[0]] + rest[1..];
        if |rest| == 1 {
          assert s == [s[0]] + s[1..];
        } else {
          assert ws[1..] == rest[1..];
          assert JoinWords(rest) == rest[0] + " " + JoinWords(rest[1..]);
          assert s == [s[0]] + s[1..];
        }
      }
    }
  }

  /** A word without spaces splits to itself. */
  lemma {:induction false} SplitSpaceFree(w: string)
    requires ' ' !in w
    ensures SplitWords(w) == [w]
  {
    if |w| > 0 {
      assert ' ' !in w[1..] by {
        forall i | 0 <= i < |w[1..]| ensures w[1..][i] != ' ' {
          assert w[1..][i] == w[i + 1];
        }
      }
      SplitSpaceFree(w[1..]);
      assert w == [w[0]] + w[1..];
    }
  }

  /** Splitting a space-free word, a space and a tail gives the word followed
      by the pieces of the tail. */
  lemma {:induction false} SplitAfterWord(w: string, t: string)
    requires ' ' !in w
    ensures SplitWords(w + " " + t) == [w] + SplitWords(t)
  {
    if |w| == 0 {
      assert w + " " + t == [' '] + t;
      assert (w + " " + t)[1..] == t;
    } else {
      assert ' ' !in w[1..] by {
        forall i | 0 <= i < |w[1..]| ensures w[1..][i] != ' ' {
          assert w[1..][i] == w[i + 1];
        }
      }
      SplitAfterWord(w[1..], t);
      assert (w + " " + t)[1..] == w[1..] + " " + t;
      assert w == [w[0]] + w[1..];
    }
  }

  /** Splitting a join of space-free words gives the words back: together
      with `JoinSplit`, split and join are inverse bijections. */
  lemma {:induction false} SplitJoin(ws: seq<string>)
    requires |ws| >= 1
    requires forall i :: 0 <= i < |ws| ==> ' ' !in ws[i]
    ensures SplitWords(JoinWords(ws)) == ws
  {
    if |ws| == 1 {
      SplitSpaceFree(ws[0]);
    } else {
      SplitJoin(ws[1..]);
      SplitAfterWord(ws[0], JoinWords(ws[1..]));
      assert ws == [ws[0]] + ws[1..];
    }
  }

  /** One word element per space plus one. */
  lemma {:induction false} WordCount(s: string)
    ensures |SplitWords(s)| == CountSpaces(s) + 1
  {
    if |s| > 0 {
      WordCount(s[1..]);
    }
  }

  /** The characters wrapped in spans, word after word, are the text with
      its spaces removed, in order. */
  lemma {:induction false} SpanContents(s: string)
    ensures Flatten(SplitWords(s)) == RemoveSpaces(s)
  {
    if |s| > 0 {
      var rest := SplitWords(s[1..]);
      SpanContents(s[1..]);
      if s[0] == ' ' {
        assert ([""] + rest)[1..] == rest;
      } else {
        var ws := SplitWords(s);
        assert ws[1..] == rest[1..];
        assert Flatten(rest) == rest[0] + Flatten(rest[1..]);
      }
    }
  }

  lemma {:induction false} RemoveSpacesLength(s: string)
    ensures |RemoveSpaces(s)| == |s| - CountSpaces(s)
  {
    if |s| > 0 {
      RemoveSpacesLength(s[1..]);
    }
  }

  // The markup the component writes into `innerHTML`.

  const SpanOpen: string := "<span class=\"char\">"
  const SpanClose: string := "</span>"
  const WordOpen: string := "<div class=\"word\" style=\"display: inline-block; margin-right: 0.25em;\">"
  const WordClose: string := "</div>"

  /** `word.split("").map(char => `<span class="char">${char}</span>`).join("")`;
      the character goes in as it is, with no HTML escaping. */
  function CharSpans(w: string): string {
    if |w| == 0 then "" else SpanOpen + [w[0]] + SpanClose + CharSpans(w[1..])
  }

  function WordElements(ws: seq<string>): string {
    if |ws| == 0 then "" else WordOpen + CharSpans(ws[0]) + WordClose + WordElements(ws[1..])
  }

  function FormattedHtml(text: string): string {
    WordElements(SplitWords(text))
  }

  lemma {:induction false} CharSpansLength(w: string)
    ensures |CharSpans(w)| == |w| * (|SpanOpen| + 1 + |SpanClose|)
  {
    if |w| > 0 {
      CharSpansLength(w[1..]);
    }
  }

  /** The width of one character span: its open tag, the character and its
      close tag. */
  const SpanWidth: nat := |SpanOpen| + 1 + |SpanClose|

  /** The i-th span of a word's markup holds exactly the word's i-th
      character, unescaped, between the span tags. */
  lemma {:induction false} CharSpanAt(w: string, i: nat)
    requires i < |w|
    ensures |CharSpans(w)| == |w| * SpanWidth
    ensures CharSpans(w)[i * SpanWidth..(i + 1) * SpanWidth] == SpanOpen + [w[i]] + SpanClose
    decreases i
  {
    CharSpansLength(w);
    var head := SpanOpen + [w[0]] + SpanClose;
    var rest := CharSpans(w[1..]);
    assert CharSpans(w) == head + rest;
    assert |head| == SpanWidth;
    if i == 0 {
      assert (head + rest)[0..SpanWidth] == head;
    } else {
      CharSpanAt(w[1..], i - 1);
      assert i * SpanWidth == SpanWidth + (i - 1) * SpanWidth;
      assert (i + 1) * SpanWidth == SpanWidth + i * SpanWidth;
      assert (head + rest)[SpanWidth + (i - 1) * SpanWidth..SpanWidth + i * SpanWidth]
          == rest[(i - 1) * SpanWidth..i * SpanWidth];
      assert w[1..][i - 1] == w[i];
    }
  }

  lemma {:induction false} WordElementsLength(ws: seq<string>)
    ensures |WordElements(ws)| == |ws| * (|WordOpen| + |WordClose|) + |Flatten(ws)| * (|SpanOpen| + 1 + |SpanClose|)
  {
    if |ws| > 0 {
      WordElementsLength(ws[1..]);
      CharSpansLength(ws[0]);
    }
  }

  /** The markup's length: one word wrapper per piece and one span width
      per non-space character (what each span holds is `CharSpanAt`). */
  lemma FormattedHtmlLength(text: string)
    ensures |FormattedHtml(text)|
         == (CountSpaces(text) + 1) * (|WordOpen| + |WordClose|)
          + (|text| - CountSpaces(text)) * (|SpanOpen| + 1 + |SpanClose|)
  {
    WordElementsLength(SplitWords(text));
    WordCount(text);
    SpanContents(text);
    RemoveSpacesLength(text);
  }

  /** A markup character is written verbatim inside its span. */
  lemma CharacterNotEscaped(c: char)
    requires c != ' '
    ensures FormattedHtml([c]) == WordOpen + SpanOpen + [c] + SpanClose + WordClose
  {
    assert SplitWords([c]) == [[c]] by {
      SplitSpaceFree([c]);
    }
    assert [c][1..] == "";
    assert CharSpans([c]) == SpanOpen + [c] + SpanClose;
    assert [[c]][1..] == [];
    assert WordElements([[c]]) == WordOpen + CharSpans([c]) + WordClose;
  }

  /** The timeline position of span i: `i * 0.01`. */
  function Offset(i: nat): real {
    i as real * 0.01
  }

  /** The positions of all spans of the text, in document order. */
  function Schedule(text: string): (r: seq<real>)
    ensures |r| == |text| - CountSpaces(text)
    ensures forall i, j :: 0 <= i < j < |r| ==> r[i] < r[j]
  {
    RemoveSpacesLength(text);
    seq(|RemoveSpaces(text)|, i requires 0 <= i => Offset(i))
  }
}
