/** The classic word count: `map_function` lower-cases a line, splits it on
    white space, strips `.,!?";` from both ends of each token and emits
    `(word, 1)` for every token that is not left empty; `reduce_function`
    is the sum reducer (Counting.SumReduce). */
module WordCountHdfs {
  import opened Seqs
  import opened PyStr
  import opened Grouper
  import opened Phases

  /** The stripped tokens that are not empty, in token order. */
  function CleanWords(tokens: seq<string>): seq<string>
  {
    if tokens == [] then []
    else
      var w := Strip(tokens[|tokens| - 1]);
      CleanWords(tokens[..|tokens| - 1]) + (if w != [] then [w] else [])
  }

  lemma CleanWordsStep(tokens: seq<string>, j: nat)
    requires j < |tokens|
    ensures CountOnes(CleanWords(tokens[..j + 1]))
         == CountOnes(CleanWords(tokens[..j])) + (if Strip(tokens[j]) != [] then [(Strip(tokens[j]), 1)] else [])
  {
    assert tokens[..j + 1][..j] == tokens[..j];
    var w := Strip(tokens[j]);
    var kept := if w != [] then [w] else [];
    assert CleanWords(tokens[..j + 1]) == CleanWords(tokens[..j]) + kept;
    CountOnesAppend(CleanWords(tokens[..j]), kept);
  }

  lemma CountOnesAppend(a: seq<string>, b: seq<string>)
    ensures CountOnes(a + b) == CountOnes(a) + CountOnes(b)
  {
  }

  /** The words a line is counted as. */
  function Words(value: string): seq<string>
  {
    CleanWords(Split(Lower(value)))
  }

  /** Every word paired with the count 1. */
  function CountOnes(words: seq<string>): seq<(string, int)>
  {
    seq(|words|, i requires 0 <= i < |words| => (words[i], 1))
  }

  /** `map_function(key, value)`. */
  function MapFunction<K0>(key: K0, value: string): seq<(string, int)>
  {
    CountOnes(Words(value))
  }

  /** The words of every record, record after record. */
  function InputWords<K0>(input: seq<(K0, string)>): seq<string>
  {
    if input == [] then [] else InputWords(input[..|input| - 1]) + Words(input[|input| - 1].1)
  }

  /** A word as the tokenizer leaves it: not empty, without white space
      or upper-case letters, and not starting or ending with `.,!?";`. */
  predicate IsCleanWord(w: string)
  {
    && w != []
    && NoSpace(w) && NoUpper(w)
    && !IsPunct(w[0]) && !IsPunct(w[|w| - 1])
  }

  lemma StripCleansToken(t: string)
    requires NoSpace(t) && NoUpper(t) && Strip(t) != []
    ensures IsCleanWord(Strip(t))
  {
    StripIsTrimmedSlice(t);
    StripKeepsChars(t);
    var w := Strip(t);
    forall k | 0 <= k < |w| ensures !IsSpace(w[k]) && !IsUpper(w[k]) {
      var m :| 0 <= m < |t| && t[m] == w[k];
    }
  }

  lemma {:induction false} CleanWordsAreClean(tokens: seq<string>)
    requires forall i :: 0 <= i < |tokens| ==> NoSpace(tokens[i]) && NoUpper(tokens[i])
    ensures forall i :: 0 <= i < |CleanWords(tokens)| ==> IsCleanWord(CleanWords(tokens)[i])
    ensures |CleanWords(tokens)| <= |tokens|
  {
    if tokens != [] {
      var t := tokens[|tokens| - 1];
      CleanWordsAreClean(tokens[..|tokens| - 1]);
      if Strip(t) != [] {
        StripCleansToken(t);
      }
    }
  }

  lemma SplitLowerTokens(value: string)
    ensures forall i :: 0 <= i < |Split(Lower(value))| ==>
              NoSpace(Split(Lower(value))[i]) && NoUpper(Split(Lower(value))[i])
  {
    var low := Lower(value);
    var tokens := Split(low);
    LowerFacts(value);
    SplitWords(low);
    forall i | 0 <= i < |tokens| ensures NoUpper(tokens[i]) {
      SplitKeepsChars(low, i);
    }
  }

  lemma {:induction false} SplitKeepsChars(s: string, i: nat)
    requires i < |Split(s)|
    ensures forall k :: 0 <= k < |Split(s)[i]| ==> Split(s)[i][k] in s
    decreases |s|
  {
    if IsSpace(s[0]) {
      SplitKeepsChars(s[1..], i);
    } else {
      var n := WordLength(s);
      if i > 0 {
        SplitKeepsChars(s[n..], i - 1);
      }
    }
  }

  /** Every emitted pair is `(w, 1)` with `w` a clean word, and there are
      no more pairs than white-space tokens. */
  lemma MapFunctionEmitsCleanOnes<K0>(key: K0, value: string)
    ensures forall i :: 0 <= i < |MapFunction(key, value)| ==>
              MapFunction(key, value)[i].1 == 1 && IsCleanWord(MapFunction(key, value)[i].0)
    ensures |MapFunction(key, value)| <= |Split(Lower(value))|
  {
    SplitLowerTokens(value);
    CleanWordsAreClean(Split(Lower(value)));
  }

  /** A blank line emits nothing. */
  lemma MapFunctionBlank<K0>(key: K0, value: string)
    requires IsBlank(value)
    ensures MapFunction(key, value) == []
  {
    LowerFacts(value);
    SplitEmptyIffBlank(Lower(value));
  }

  lemma {:induction false} CleanWordsOfWords(tokens: seq<string>)
    requires forall i :: 0 <= i < |tokens| ==> tokens[i] != [] && NoPunct(tokens[i])
    ensures CleanWords(tokens) == tokens
  {
    if tokens != [] {
      var p := tokens[..|tokens| - 1];
      var last := tokens[|tokens| - 1];
      CleanWordsOfWords(p);
      StripNoPunct(last);
      assert tokens == p + [last];
    }
  }

  /** On a line with neither punctuation nor upper-case letters, the map
      function counts exactly the white-space-separated words. */
  lemma MapFunctionPlainLine<K0>(key: K0, value: string)
    requires NoPunct(value) && NoUpper(value)
    ensures MapFunction(key, value) == CountOnes(Split(value))
  {
    assert Lower(value) == value;
    SplitWords(value);
    forall i | 0 <= i < |Split(value)| ensures NoPunct(Split(value)[i]) {
      SplitKeepsChars(value, i);
    }
    CleanWordsOfWords(Split(value));
  }

  lemma PairKeysAppend(a: seq<(string, int)>, b: seq<(string, int)>)
    ensures PairKeys(a + b) == PairKeys(a) + PairKeys(b)
  {
  }

  /** The keys of the mapped pairs of a whole input are its words, record
      after record. */
  lemma {:induction false} MapAllWords<K0>(input: seq<(K0, string)>)
    ensures PairKeys(MapAll(MapFunction, input)) == InputWords(input)
  {
    if input != [] {
      var n := |input| - 1;
      MapAllWords(input[..n]);
      MapAllStep(MapFunction, input, n);
      assert input[..n + 1] == input;
      PairKeysAppend(MapAll(MapFunction, input[..n]), MapFunction(input[n].0, input[n].1));
      assert PairKeys(MapFunction(input[n].0, input[n].1)) == Words(input[n].1);
    }
  }

  /** Every mapped pair of a whole input carries the count 1. */
  lemma {:induction false} MapAllOnes<K0>(input: seq<(K0, string)>)
    ensures forall i :: 0 <= i < |MapAll(MapFunction, input)| ==> MapAll(MapFunction, input)[i].1 == 1
  {
    if input != [] {
      var n := |input| - 1;
      MapAllOnes(input[..n]);
      MapAllStep(MapFunction, input, n);
      assert input[..n + 1] == input;
    }
  }

  /** Every word of an input is a clean word. */
  lemma {:induction false} InputWordsAreClean<K0>(input: seq<(K0, string)>)
    ensures forall i :: 0 <= i < |InputWords(input)| ==> IsCleanWord(InputWords(input)[i])
  {
    if input != [] {
      InputWordsAreClean(input[..|input| - 1]);
      var value := input[|input| - 1].1;
      SplitLowerTokens(value);
      CleanWordsAreClean(Split(Lower(value)));
    }
  }
}
