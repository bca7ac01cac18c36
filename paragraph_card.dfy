/**
 * The values the paragraph card derives from its props before rendering: the empty-text
 * guard, the long-text switch and the author's initials shown in the avatar.
 */
module ParagraphCard {
  import opened Wrappers
  import opened Text

  /** Texts longer than this many UTF-16 code units (`text.length`) are shown in a scrolling box. */
  const LongTextThreshold: nat := 200

  /** What the card shows besides the text itself. */
  datatype Card = Card(isLongText: bool, authorInitials: string)

  /** `s.split(' ')`: the pieces between single spaces, empty pieces included. */
  function Split(s: string): (r: seq<string>)
    ensures |r| >= 1
  {
    if s == [] then [[]]
    else
      var rest := Split(s[1..]);
      if s[0] == ' ' then [[]] + rest else [[s[0]] + rest[0]] + rest[1..]
  }

  /** `words.join(' ')`. */
  function Join(words: seq<string>): string {
    if |words| <= 1 then (if words == [] then [] else words[0])
    else words[0] + " " + Join(words[1..])
  }

  /** Splitting on spaces and joining with spaces gives the author back: nothing is lost. */
  lemma {:induction false} JoinSplit(s: string)
    ensures Join(Split(s)) == s
  {
    if s != [] {
      JoinSplit(s[1..]);
      var rest := Split(s[1..]);
      if s[0] == ' ' {
        assert s == " " + Join(rest);
      } else if |rest| == 1 {
        assert s == [s[0]] + rest[0];
      } else {
        assert Join(rest) == rest[0] + " " + Join(rest[1..]);
        assert s == [s[0]] + Join(rest);
      }
    }
  }

  /** `.map(word => word[0]).join('')`: an empty piece yields `undefined`, which joins as nothing. */
  function FirstChars(words: seq<string>): string {
    if words == [] then []
    else (if words[0] == [] then [] else [words[0][0]]) + FirstChars(words[1..])
  }

  /**
   * The reference reading of the initials: scanning left to right, every non-space character
   * that starts the string or follows a space. `atStart` says whether the previous character
   * was a space (or there was none).
   */
  function WordStarts(s: string, atStart: bool): string {
    if s == [] then []
    else (if s[0] != ' ' && atStart then [s[0]] else []) + WordStarts(s[1..], s[0] == ' ')
  }

  /** The split-map-join chain picks exactly the characters the scan picks, in the same order. */
  lemma {:induction false} FirstCharsAreWordStarts(s: string)
    ensures FirstChars(Split(s)) == WordStarts(s, true)
    ensures FirstChars(Split(s)[1..]) == WordStarts(s, false)
  {
    if s != [] {
      FirstCharsAreWordStarts(s[1..]);
      var rest := Split(s[1..]);
      if s[0] == ' ' {
        assert Split(s) == [[]] + rest;
        assert Split(s)[1..] == rest;
      } else {
        assert Split(s) == [[s[0]] + rest[0]] + rest[1..];
        assert Split(s)[1..] == rest[1..];
      }
    }
  }

  /** No character of the scan is a space, and the scan never picks more characters than there are. */
  lemma {:induction false} WordStartsShape(s: string, atStart: bool)
    ensures |WordStarts(s, atStart)| <= |s|
    ensures forall k | 0 <= k < |WordStarts(s, atStart)| :: WordStarts(s, atStart)[k] != ' '
  {
    if s != [] {
      WordStartsShape(s[1..], s[0] == ' ');
    }
  }

  /**
   * `authorInitials`: the upper-cased first characters of the non-empty space-separated words of
   * the author, at most two of them.
   */
  function AuthorInitials(author: string): (r: string)
    ensures |r| <= 2
    ensures var starts := ToUpper(WordStarts(author, true));
            r == starts[..if |starts| < 2 then |starts| else 2]
  {
    var all := ToUpper(FirstChars(Split(author)));
    FirstCharsAreWordStarts(author);
    all[..if |all| < 2 then |all| else 2]
  }

  /** Whether the scan is at a word start after reading `a`, having started in state `atStart`. */
  function After(a: string, atStart: bool): bool {
    if a == [] then atStart else a[|a| - 1] == ' '
  }

  lemma AfterTail(a: string, atStart: bool)
    requires a != []
    ensures After(a[1..], a[0] == ' ') == After(a, atStart)
  {
    if |a| > 1 {
      assert a[1..][|a| - 2] == a[|a| - 1];
    }
  }

  /** The scan of a concatenation is the scan of each part, the second resuming after the first. */
  lemma {:induction false} WordStartsAppend(a: string, b: string, atStart: bool)
    ensures WordStarts(a + b, atStart) == WordStarts(a, atStart) + WordStarts(b, After(a, atStart))
  {
    var ab := a + b;
    if a == [] {
      assert ab == b;
    } else {
      var head := if a[0] != ' ' && atStart then [a[0]] else [];
      var resume := After(a, atStart);
      WordStartsAppend(a[1..], b, a[0] == ' ');
      AfterTail(a, atStart);
      assert ab[1..] == a[1..] + b && ab[0] == a[0];
      var x, y := WordStarts(a[1..], a[0] == ' '), WordStarts(b, resume);
      calc {
        WordStarts(ab, atStart);
        head + WordStarts(ab[1..], a[0] == ' ');
        head + (x + y);
        { assert head + (x + y) == (head + x) + y; }
        (head + x) + y;
        WordStarts(a, atStart) + y;
      }
    }
  }

  /** A run of spaces starts no word. */
  lemma {:induction false} SpacesStartNothing(sp: string, atStart: bool)
    requires forall k | 0 <= k < |sp| :: sp[k] == ' '
    ensures WordStarts(sp, atStart) == []
  {
    if sp != [] {
      SpacesStartNothing(sp[1..], true);
    }
  }

  /** A word without spaces contributes its first character exactly when it starts a word. */
  lemma {:induction false} WordWithoutSpaces(w: string, atStart: bool)
    requires forall k | 0 <= k < |w| :: w[k] != ' '
    ensures WordStarts(w, atStart) == if w != [] && atStart then [w[0]] else []
  {
    if w != [] {
      WordWithoutSpaces(w[1..], false);
    }
  }

  /** A word without spaces at a word start contributes its first character and leaves the scan mid-word. */
  lemma WordThenRest(first: string, tail: string)
    requires first != [] && forall k | 0 <= k < |first| :: first[k] != ' '
    ensures WordStarts(first + tail, true) == [first[0]] + WordStarts(tail, false)
  {
    WordWithoutSpaces(first, true);
    WordStartsAppend(first, tail, true);
    assert first[|first| - 1] != ' ';
  }

  /** Spaces contribute nothing and leave the scan at a word start. */
  lemma SpacesThenRest(sp: string, last: string)
    requires sp != [] && forall k | 0 <= k < |sp| :: sp[k] == ' '
    ensures WordStarts(sp + last, false) == WordStarts(last, true)
  {
    WordStartsAppend(sp, last, false);
    SpacesStartNothing(sp, false);
    assert sp[|sp| - 1] == ' ';
    assert WordStarts(sp + last, false) == [] + WordStarts(last, true);
  }

  lemma ConsTwo(a: char, b: char, r: string)
    ensures [a] + ([b] + r) == [a, b] + r
  {
  }

  /** A scan at a word start over a string starting with a non-space picks its first character. */
  lemma StartsWithWord(last: string)
    requires last != [] && last[0] != ' '
    ensures WordStarts(last, true) == [last[0]] + WordStarts(last[1..], false)
  {
  }

  /** The scan over "word, spaces, word" begins with the two words' first characters. */
  lemma TwoWordStarts(first: string, sp: string, last: string)
    requires first != [] && forall k | 0 <= k < |first| :: first[k] != ' '
    requires sp != [] && forall k | 0 <= k < |sp| :: sp[k] == ' '
    requires last != [] && last[0] != ' '
    ensures WordStarts(first + sp + last, true) == [first[0], last[0]] + WordStarts(last[1..], false)
  {
    var tail := sp + last;
    var rest := WordStarts(last[1..], false);
    assert first + sp + last == first + tail;
    WordThenRest(first, tail);
    SpacesThenRest(sp, last);
    StartsWithWord(last);
    ConsTwo(first[0], last[0], rest);
  }

  /**
   * An author that is one word gets one initial; two words separated by one or more spaces get
   * the upper-cased first letter of each, in order.
   */
  lemma InitialsOfNames(first: string, sp: string, last: string)
    requires first != [] && forall k | 0 <= k < |first| :: first[k] != ' '
    requires sp != [] && forall k | 0 <= k < |sp| :: sp[k] == ' '
    requires last != [] && last[0] != ' '
    ensures AuthorInitials(first) == [UpperChar(first[0])]
    ensures AuthorInitials(first + sp + last) == [UpperChar(first[0]), UpperChar(last[0])]
  {
    WordWithoutSpaces(first, true);
    TwoWordStarts(first, sp, last);
  }

  /** The card: nothing for an empty text; otherwise the long-text switch and the initials. */
  function Render(text: string, author: string): (r: Option<Card>)
    ensures r.None? <==> text == ""
    ensures r.Some? ==> (r.value.isLongText <==> Utf16Length(text) > LongTextThreshold)
    ensures r.Some? ==> |r.value.authorInitials| <= 2
  {
    if text == "" then None
    else Some(Card(Utf16Length(text) > LongTextThreshold, AuthorInitials(author)))
  }
}
