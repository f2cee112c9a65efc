/** The Python `str` methods the word tokenizer relies on, at ASCII level:
    `isspace`, `lower`, `split()` with no separator and `strip(chars)`. */
module PyStr {
  import opened Seqs

  /** `str.isspace` on ASCII: tab, line feed, vertical tab, form feed,
      carriage return, the four information separators and the space. */
  predicate IsSpace(c: char)
  {
    (9 <= c as int <= 13) || (28 <= c as int <= 32)
  }

  /** `not value or not value.strip()`: empty or made of white space only. */
  predicate IsBlank(s: string)
  {
    forall i :: 0 <= i < |s| ==> IsSpace(s[i])
  }

  predicate NoSpace(s: string)
  {
    forall i :: 0 <= i < |s| ==> !IsSpace(s[i])
  }

  predicate IsUpper(c: char)
  {
    'A' <= c <= 'Z'
  }

  predicate NoUpper(s: string)
  {
    forall i :: 0 <= i < |s| ==> !IsUpper(s[i])
  }

  function LowerChar(c: char): (r: char)
  {
    if IsUpper(c) then (c as int + 32) as char else c
  }

  /** `str.lower`, ASCII letters only. */
  function Lower(s: string): (r: string)
  {
    seq(|s|, i requires 0 <= i < |s| => LowerChar(s[i]))
  }

  /** The characters `strip('.,!?";')` removes. */
  predicate IsPunct(c: char)
  {
    c == '.' || c == ',' || c == '!' || c == '?' || c == '"' || c == ';'
  }

  predicate NoPunct(s: string)
  {
    forall i :: 0 <= i < |s| ==> !IsPunct(s[i])
  }

  // ---------------------------------------------------------------------
  // split()

  /** The length of the run of non-space characters that starts `s`. */
  function WordLength(s: string): (n: nat)
    ensures n <= |s|
    ensures forall i :: 0 <= i < n ==> !IsSpace(s[i])
    ensures n == |s| || IsSpace(s[n])
  {
    if s == [] || IsSpace(s[0]) then 0 else 1 + WordLength(s[1..])
  }

  /** `str.split()`: the maximal runs of non-space characters, in order. */
  function Split(s: string): (r: seq<string>)
    decreases |s|
  {
    if s == [] then []
    else if IsSpace(s[0]) then Split(s[1..])
    else
      var n := WordLength(s);
      [s[..n]] + Split(s[n..])
  }

  /** Words joined by single spaces (`" ".join(words)`). */
  function Join(words: seq<string>): (r: string)
  {
    if words == [] then []
    else if |words| == 1 then words[0]
    else words[0] + " " + Join(words[1..])
  }

  /** The characters of `s` that are not white space, in order. */
  function NonSpace(s: string): (r: string)
  {
    if s == [] then []
    else (if IsSpace(s[0]) then [] else [s[0]]) + NonSpace(s[1..])
  }

  predicate IsWord(w: string)
  {
    w != [] && NoSpace(w)
  }

  predicate AllWords(words: seq<string>)
  {
    forall i :: 0 <= i < |words| ==> IsWord(words[i])
  }

  lemma {:induction false} NonSpaceAppend(a: string, b: string)
    ensures NonSpace(a + b) == NonSpace(a) + NonSpace(b)
  {
    if a != [] {
      assert (a + b)[0] == a[0];
      assert (a + b)[1..] == a[1..] + b;
      NonSpaceAppend(a[1..], b);
      var h := if IsSpace(a[0]) then [] else [a[0]];
      assert NonSpace(a + b) == h + (NonSpace(a[1..]) + NonSpace(b));
    } else {
      assert a + b == b;
    }
  }

  lemma {:induction false} NonSpaceOfWord(w: string)
    requires NoSpace(w)
    ensures NonSpace(w) == w
  {
    if w != [] {
      NonSpaceOfWord(w[1..]);
    }
  }

  /** Every word `split()` returns is non-empty and free of white space, and
      together the words hold exactly the non-space characters of `s`. */
  lemma {:induction false} SplitWords(s: string)
    ensures AllWords(Split(s))
    ensures Concat(Split(s)) == NonSpace(s)
    decreases |s|
  {
    if s != [] {
      if IsSpace(s[0]) {
        SplitWords(s[1..]);
      } else {
        var n := WordLength(s);
        SplitWords(s[n..]);
        ConcatCons(s[..n], Split(s[n..]));
        assert s == s[..n] + s[n..];
        NonSpaceAppend(s[..n], s[n..]);
        NonSpaceOfWord(s[..n]);
      }
    }
  }

  /** `split()` returns no words exactly when the string is blank. */
  lemma {:induction false} SplitEmptyIffBlank(s: string)
    ensures Split(s) == [] <==> IsBlank(s)
    decreases |s|
  {
    if s != [] {
      SplitEmptyIffBlank(s[1..]);
      if IsSpace(s[0]) {
        assert IsBlank(s) <==> IsBlank(s[1..]) by {
          assert forall i :: 0 < i < |s| ==> s[i] == s[1..][i - 1];
        }
      } else {
        assert !IsBlank(s);
      }
    }
  }

  lemma {:induction false} WordLengthOfWord(w: string, rest: string)
    requires IsWord(w)
    requires rest == [] || IsSpace(rest[0])
    ensures WordLength(w + rest) == |w|
    decreases |w|
  {
    assert (w + rest)[1..] == w[1..] + rest;
    if |w| > 1 {
      WordLengthOfWord(w[1..], rest);
    }
  }

  /** A word followed by white space (or by nothing) splits off as one word. */
  lemma SplitWordFirst(w: string, rest: string)
    requires IsWord(w)
    requires rest == [] || IsSpace(rest[0])
    ensures Split(w + rest) == [w] + Split(rest)
  {
    WordLengthOfWord(w, rest);
    assert (w + rest)[..|w|] == w;
    assert (w + rest)[|w|..] == rest;
  }

  /** `split()` undoes `" ".join(...)` on a list of words. */
  lemma {:induction false} SplitJoin(words: seq<string>)
    requires AllWords(words)
    ensures Split(Join(words)) == words
  {
    if |words| == 1 {
      SplitWordFirst(words[0], []);
      assert words[0] + [] == words[0];
    } else if |words| > 1 {
      var rest := " " + Join(words[1..]);
      SplitJoin(words[1..]);
      SplitWordFirst(words[0], rest);
      assert words[0] + " " + Join(words[1..]) == words[0] + rest;
      assert rest[1..] == Join(words[1..]);
      assert words == [words[0]] + words[1..];
    }
  }

  // ---------------------------------------------------------------------
  // strip('.,!?";')

  /** `lstrip`: drops the leading punctuation. */
  function StripStart(s: string): (r: string)
    ensures |r| <= |s| && r == s[|s| - |r|..]
    ensures forall i :: 0 <= i < |s| - |r| ==> IsPunct(s[i])
    ensures r == [] || !IsPunct(r[0])
  {
    if s != [] && IsPunct(s[0]) then StripStart(s[1..]) else s
  }

  /** `rstrip`: drops the trailing punctuation. */
  function StripEnd(s: string): (r: string)
    ensures |r| <= |s| && r == s[..|r|]
    ensures forall i :: |r| <= i < |s| ==> IsPunct(s[i])
    ensures r == [] || !IsPunct(r[|r| - 1])
  {
    if s != [] && IsPunct(s[|s| - 1]) then StripEnd(s[..|s| - 1]) else s
  }

  /** `strip('.,!?";')`. */
  function Strip(s: string): (r: string)
  {
    StripEnd(StripStart(s))
  }

  /** The number of leading characters `strip` removes. */
  function StripOffset(s: string): (r: nat)
  {
    |s| - |StripStart(s)|
  }

  /** The stripped string is the slice of `s` after the leading punctuation. */
  lemma StripSlice(s: string)
    ensures StripOffset(s) + |Strip(s)| <= |s|
    ensures Strip(s) == s[StripOffset(s)..StripOffset(s) + |Strip(s)|]
  {
    var t := StripStart(s);
    assert t == s[StripOffset(s)..];
    assert Strip(s) == t[..|Strip(s)|];
  }

  /** What `strip` removes after the kept slice is punctuation. */
  lemma StripTail(s: string)
    ensures forall k :: StripOffset(s) + |Strip(s)| <= k < |s| ==> IsPunct(s[k])
  {
    var t := StripStart(s);
    var i := StripOffset(s);
    assert t == s[i..];
    forall k | i + |Strip(s)| <= k < |s| ensures IsPunct(s[k]) {
      assert s[k] == t[k - i];
    }
  }

  /** `strip` removes punctuation from both ends and nothing else: the
      result is the slice of `s` that starts after the leading punctuation,
      everything before and after that slice is punctuation, and the result
      neither starts nor ends with punctuation. */
  lemma StripIsTrimmedSlice(s: string)
    ensures StripOffset(s) + |Strip(s)| <= |s|
    ensures Strip(s) == s[StripOffset(s)..StripOffset(s) + |Strip(s)|]
    ensures forall k :: 0 <= k < StripOffset(s) ==> IsPunct(s[k])
    ensures forall k :: StripOffset(s) + |Strip(s)| <= k < |s| ==> IsPunct(s[k])
    ensures Strip(s) == [] || (!IsPunct(Strip(s)[0]) && !IsPunct(Strip(s)[|Strip(s)| - 1]))
  {
    StripSlice(s);
    StripTail(s);
    var t := StripStart(s);
    if Strip(s) != [] {
      assert Strip(s)[0] == t[0];
    }
  }

  /** A string with no punctuation is left as it is. */
  lemma StripNoPunct(s: string)
    requires NoPunct(s)
    ensures Strip(s) == s
  {
    if s != [] {
      assert StripStart(s) == s;
    }
  }

  /** Stripping twice is the same as stripping once. */
  lemma StripIdempotent(s: string)
    ensures Strip(Strip(s)) == Strip(s)
  {
    var r := Strip(s);
    StripIsTrimmedSlice(s);
    if r != [] {
      assert StripStart(r) == r;
      assert StripEnd(r) == r;
    }
  }

  /** What `strip` keeps is a slice, so it keeps any property every
      character of the input has. */
  lemma StripKeepsChars(s: string)
    ensures forall k :: 0 <= k < |Strip(s)| ==> Strip(s)[k] in s
  {
    var i := StripOffset(s);
    StripIsTrimmedSlice(s);
    forall k | 0 <= k < |Strip(s)| ensures Strip(s)[k] in s {
      assert Strip(s)[k] == s[i + k];
    }
  }

  // ---------------------------------------------------------------------
  // lower()

  /** `lower()` leaves no upper-case letter, changes no length and leaves
      white space and punctuation where they were. */
  lemma LowerFacts(s: string)
    ensures NoUpper(Lower(s)) && |Lower(s)| == |s|
    ensures forall i :: 0 <= i < |s| ==> (IsSpace(Lower(s)[i]) <==> IsSpace(s[i]))
    ensures forall i :: 0 <= i < |s| ==> (IsPunct(Lower(s)[i]) <==> IsPunct(s[i]))
  {
  }

  /** Lower-casing twice is the same as once. */
  lemma LowerIdempotent(s: string)
    ensures Lower(Lower(s)) == Lower(s)
  {
  }
}
