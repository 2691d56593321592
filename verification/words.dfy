/**
 Parsing the free-text word field: `[w.strip() for w in text.split(',') if w.strip()]`.
 Splitting, stripping and filtering are modelled after Python's `str.split(',')`,
 `str.strip()` and the truthiness of a string.
 */
module Words {

  /**
   The characters Python's `str.isspace()` accepts, which `str.strip()` with no
   argument removes: the ASCII controls 0x09-0x0D and 0x1C-0x1F, the space, and
   the Unicode separators.
   */
  predicate IsSpace(c: char)
  {
    var n := c as int;
    || 0x09 <= n <= 0x0D
    || 0x1C <= n <= 0x20
    || n == 0x85 || n == 0xA0 || n == 0x1680
    || 0x2000 <= n <= 0x200A
    || n == 0x2028 || n == 0x2029 || n == 0x202F || n == 0x205F || n == 0x3000
  }

  predicate AllSpace(s: string)
  {
    forall i :: 0 <= i < |s| ==> IsSpace(s[i])
  }

  /** Neither end of `w` is whitespace. */
  predicate Trimmed(w: string)
  {
    w == [] || (!IsSpace(w[0]) && !IsSpace(w[|w| - 1]))
  }

  /** A word as the parser hands it on: non-empty, trimmed, free of commas. */
  predicate CleanWord(w: string)
  {
    w != [] && Trimmed(w) && ',' !in w
  }

  function Count(s: string, c: char): nat
  {
    if s == [] then 0 else (if s[0] == c then 1 else 0) + Count(s[1..], c)
  }

  // ---------------------------------------------------------------- split

  /** `s.split(sep)`: the maximal separator-free pieces, in order; "" gives [""]. */
  function SplitOn(s: string, sep: char): (pieces: seq<string>)
    ensures |pieces| == Count(s, sep) + 1
    ensures forall k :: 0 <= k < |pieces| ==> sep !in pieces[k]
    decreases |s|
  {
    if s == [] then [[]]
    else
      var rest := SplitOn(s[1..], sep);
      if s[0] == sep then [[]] + rest
      else [[s[0]] + rest[0]] + rest[1..]
  }

  /** `sep.join(pieces)`. */
  function Join(pieces: seq<string>, sep: char): string
  {
    if pieces == [] then []
    else if |pieces| == 1 then pieces[0]
    else pieces[0] + [sep] + Join(pieces[1..], sep)
  }

  /** Splitting loses nothing: joining the pieces back gives the input. */
  lemma {:induction false} JoinSplit(s: string, sep: char)
    ensures Join(SplitOn(s, sep), sep) == s
    decreases |s|
  {
    if s != [] {
      var rest := SplitOn(s[1..], sep);
      JoinSplit(s[1..], sep);
      if s[0] == sep {
        assert s == [sep] + s[1..];
      } else if |rest| == 1 {
        assert s == [s[0]] + s[1..];
      } else {
        assert rest == [rest[0]] + rest[1..];
        assert Join(rest, sep) == rest[0] + [sep] + Join(rest[1..], sep);
        assert s == [s[0]] + s[1..];
      }
    }
  }

  /** A separator in the input splits the result in two. */
  lemma {:induction false} SplitConcat(a: string, b: string, sep: char)
    ensures SplitOn(a + [sep] + b, sep) == SplitOn(a, sep) + SplitOn(b, sep)
    decreases |a|
  {
    var s := a + [sep] + b;
    if a == [] {
      assert s[1..] == b;
    } else {
      assert s[1..] == a[1..] + [sep] + b;
      SplitConcat(a[1..], b, sep);
    }
  }

  lemma {:induction false} SplitNoSeparator(a: string, sep: char)
    requires sep !in a
    ensures SplitOn(a, sep) == [a]
    decreases |a|
  {
    if a != [] {
      SplitNoSeparator(a[1..], sep);
      assert a == [a[0]] + a[1..];
    }
  }

  /** Splitting undoes joining separator-free pieces. */
  lemma {:induction false} SplitJoin(pieces: seq<string>, sep: char)
    requires |pieces| >= 1
    requires forall k :: 0 <= k < |pieces| ==> sep !in pieces[k]
    ensures SplitOn(Join(pieces, sep), sep) == pieces
    decreases |pieces|
  {
    if |pieces| == 1 {
      SplitNoSeparator(pieces[0], sep);
    } else {
      SplitJoin(pieces[1..], sep);
      SplitConcat(pieces[0], Join(pieces[1..], sep), sep);
      SplitNoSeparator(pieces[0], sep);
      assert pieces == [pieces[0]] + pieces[1..];
    }
  }

  // ---------------------------------------------------------------- strip

  /** End of the run of whitespace starting at index `i`. */
  function SpaceRun(s: string, i: nat): (j: nat)
    requires i <= |s|
    ensures i <= j <= |s|
    ensures forall k :: i <= k < j ==> IsSpace(s[k])
    ensures j < |s| ==> !IsSpace(s[j])
    decreases |s| - i
  {
    if i < |s| && IsSpace(s[i]) then SpaceRun(s, i + 1) else i
  }

  /** Start of the run of whitespace ending just before index `j`. */
  function SpaceRunBack(s: string, j: nat): (i: nat)
    requires j <= |s|
    ensures i <= j
    ensures forall k :: i <= k < j ==> IsSpace(s[k])
    ensures 0 < i ==> !IsSpace(s[i - 1])
    decreases j
  {
    if 0 < j && IsSpace(s[j - 1]) then SpaceRunBack(s, j - 1) else j
  }

  /** `s.strip()`: what is left once leading and trailing whitespace is removed. */
  function Strip(s: string): (r: string)
    ensures Trimmed(r)
    ensures |r| <= |s|
  {
    var a, b := SpaceRun(s, 0), SpaceRunBack(s, |s|);
    if a < b then s[a..b] else []
  }

  /**
   The stripped string is the slice `s[i..i + |Strip(s)|]`, and everything
   outside that slice is whitespace.
   */
  lemma StripSlice(s: string) returns (i: nat)
    ensures i + |Strip(s)| <= |s|
    ensures Strip(s) == s[i..i + |Strip(s)|]
    ensures forall k :: 0 <= k < i ==> IsSpace(s[k])
    ensures forall k :: i + |Strip(s)| <= k < |s| ==> IsSpace(s[k])
  {
    var a, b := SpaceRun(s, 0), SpaceRunBack(s, |s|);
    i := if a < b then a else 0;
  }

  /** A string of whitespace strips to nothing. */
  lemma StripAllSpace(s: string)
    requires AllSpace(s)
    ensures Strip(s) == []
  {
  }

  /** Stripping undoes whitespace padding around a trimmed word. */
  lemma StripPadded(before: string, w: string, after: string)
    requires AllSpace(before) && AllSpace(after) && Trimmed(w)
    ensures Strip(before + w + after) == w
  {
    var s := before + w + after;
    var n := |before| + |w|;
    assert forall k :: 0 <= k < |before| ==> s[k] == before[k];
    assert forall k :: n <= k < |s| ==> s[k] == after[k - n];
    if w == [] {
      assert AllSpace(s);
      StripAllSpace(s);
    } else {
      var a, b := SpaceRun(s, 0), SpaceRunBack(s, |s|);
      assert s[|before|] == w[0] && s[n - 1] == w[|w| - 1];
      assert a == |before|;
      assert b == n;
      assert s[a..b] == w;
    }
  }

  lemma StripTrimmed(w: string)
    requires Trimmed(w)
    ensures Strip(w) == w
  {
    if w != [] {
      assert SpaceRun(w, 0) == 0;
      assert SpaceRunBack(w, |w|) == |w|;
      assert w[0..|w|] == w;
    }
  }

  /** Stripping only removes characters: a comma-free string strips to a comma-free string. */
  lemma StripNoComma(s: string)
    requires ',' !in s
    ensures ',' !in Strip(s)
  {
    var r := Strip(s);
    var i := StripSlice(s);
    assert forall k :: 0 <= k < |r| ==> r[k] == s[i + k];
  }

  // ---------------------------------------------------------------- parse

  /** Strip each piece and drop those that become empty, keeping the order. */
  function KeepWords(pieces: seq<string>): (words: seq<string>)
    ensures |words| <= |pieces|
    ensures forall k :: 0 <= k < |words| ==> words[k] != [] && Trimmed(words[k])
    decreases |pieces|
  {
    if pieces == [] then [] else Kept(pieces[0]) + KeepWords(pieces[1..])
  }

  /** The word a piece contributes: its stripped form, or nothing when that is empty. */
  function Kept(piece: string): (words: seq<string>)
    ensures |words| <= 1
    ensures forall k :: 0 <= k < |words| ==> words[k] != [] && Trimmed(words[k])
  {
    var w := Strip(piece);
    if w != [] then [w] else []
  }

  lemma {:induction false} KeepWordsConcat(xs: seq<string>, ys: seq<string>)
    ensures KeepWords(xs + ys) == KeepWords(xs) + KeepWords(ys)
    decreases |xs|
  {
    if xs == [] {
      assert xs + ys == ys;
    } else {
      var h := Kept(xs[0]);
      assert (xs + ys)[0] == xs[0];
      assert (xs + ys)[1..] == xs[1..] + ys;
      calc {
        KeepWords(xs + ys);
        h + KeepWords(xs[1..] + ys);
        { KeepWordsConcat(xs[1..], ys); }
        h + (KeepWords(xs[1..]) + KeepWords(ys));
        (h + KeepWords(xs[1..])) + KeepWords(ys);
        KeepWords(xs) + KeepWords(ys);
      }
    }
  }

  /** Characters of the stripped pieces all come from the piece itself. */
  lemma {:induction false} KeepWordsNoComma(pieces: seq<string>)
    requires forall k :: 0 <= k < |pieces| ==> ',' !in pieces[k]
    ensures forall k :: 0 <= k < |KeepWords(pieces)| ==> ',' !in KeepWords(pieces)[k]
    decreases |pieces|
  {
    if pieces != [] {
      KeepWordsNoComma(pieces[1..]);
      StripNoComma(pieces[0]);
    }
  }

  /**
   The word list of the input field: every word is non-empty, trimmed and
   comma-free, and there are at most as many words as comma-separated pieces.
   */
  function ParseWords(text: string): (words: seq<string>)
    ensures |words| <= Count(text, ',') + 1
    ensures forall k :: 0 <= k < |words| ==> CleanWord(words[k])
  {
    var pieces := SplitOn(text, ',');
    KeepWordsNoComma(pieces);
    KeepWords(pieces)
  }

  /**
   Words keep their order and duplicates are kept: the words of two fields
   joined by a comma are the words of the first followed by those of the second.
   */
  lemma ParseWordsConcat(a: string, b: string)
    ensures ParseWords(a + "," + b) == ParseWords(a) + ParseWords(b)
  {
    SplitConcat(a, b, ',');
    KeepWordsConcat(SplitOn(a, ','), SplitOn(b, ','));
  }

  lemma {:induction false} KeepWordsOfClean(words: seq<string>)
    requires forall k :: 0 <= k < |words| ==> CleanWord(words[k])
    ensures KeepWords(words) == words
    decreases |words|
  {
    if words != [] {
      var w := words[0];
      assert KeepWords(words) == [w] + KeepWords(words[1..]) by {
        assert CleanWord(w);
        StripTrimmed(w);
      }
      KeepWordsOfClean(words[1..]);
      HeadTail(words);
    }
  }

  /** Parsing recovers any list of clean words joined with commas, duplicates included. */
  lemma ParseJoinedWords(words: seq<string>)
    requires forall k :: 0 <= k < |words| ==> CleanWord(words[k])
    ensures ParseWords(Join(words, ',')) == words
  {
    if words == [] {
      assert SplitOn([], ',') == [[]];
      StripAllSpace([]);
    } else {
      SplitJoin(words, ',');
      KeepWordsOfClean(words);
    }
  }

  /**
   A piece is parsed into its stripped form: a word padded with whitespace on
   either side, and no comma, parses to exactly that word.
   */
  lemma ParsePadded(before: string, w: string, after: string)
    requires AllSpace(before) && AllSpace(after) && CleanWord(w)
    ensures ParseWords(before + w + after) == [w]
  {
    var s := before + w + after;
    assert forall k :: 0 <= k < |s| ==> s[k] != ',' by {
      forall k | 0 <= k < |s|
        ensures s[k] != ','
      {
        if k < |before| {
          assert s[k] == before[k];
        } else if k < |before| + |w| {
          assert s[k] == w[k - |before|];
        } else {
          assert s[k] == after[k - |before| - |w|];
        }
      }
    }
    SplitNoSeparator(s, ',');
    StripPadded(before, w, after);
    assert KeepWords([s]) == Kept(s) + KeepWords([]);
  }

  /** Splitting a text of separators and whitespace gives pieces of whitespace only. */
  lemma {:induction false} SplitBlank(s: string, sep: char)
    requires forall i :: 0 <= i < |s| ==> s[i] == sep || IsSpace(s[i])
    ensures forall k :: 0 <= k < |SplitOn(s, sep)| ==> AllSpace(SplitOn(s, sep)[k])
    decreases |s|
  {
    if s != [] {
      var rest := SplitOn(s[1..], sep);
      assert forall i :: 0 <= i < |s[1..]| ==> s[1..][i] == s[i + 1];
      SplitBlank(s[1..], sep);
      if s[0] != sep {
        var p := [s[0]] + rest[0];
        assert AllSpace(rest[0]);
        assert forall i :: 1 <= i < |p| ==> p[i] == rest[0][i - 1];
        assert AllSpace(p);
      }
    }
  }

  /** Pieces of whitespace only leave no word. */
  lemma {:induction false} KeepWordsBlank(pieces: seq<string>)
    requires forall k :: 0 <= k < |pieces| ==> AllSpace(pieces[k])
    ensures KeepWords(pieces) == []
    decreases |pieces|
  {
    if pieces != [] {
      StripAllSpace(pieces[0]);
      KeepWordsBlank(pieces[1..]);
    }
  }

  /** A field holding only whitespace and commas names no word. */
  lemma ParseBlank(text: string)
    requires forall i :: 0 <= i < |text| ==> text[i] == ',' || IsSpace(text[i])
    ensures ParseWords(text) == []
  {
    SplitBlank(text, ',');
    KeepWordsBlank(SplitOn(text, ','));
  }

  lemma HeadTail<T>(s: seq<T>)
    requires s != []
    ensures s == [s[0]] + s[1..]
  {
  }
}
