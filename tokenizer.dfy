/** The tokenizer of the toy next-word model: strip the full stops, split on
    whitespace, sort the distinct words into a vocabulary, and number them. */
module Tokenizer {

  /** The training text of the toy model. */
  const Text: string := "the cat sat. the cat ate. the dog sat."

  // ---------------------------------------------------------------------
  // text.replace(".", "")
  // ---------------------------------------------------------------------

  /** `s.replace(".", "")`: every full stop removed, everything else kept. */
  function RemoveDots(s: string): (r: string)
    ensures |r| <= |s|
    ensures forall c :: c in r <==> c in s && c != '.'
  {
    if s == [] then [] else (if s[0] == '.' then [] else [s[0]]) + RemoveDots(s[1..])
  }

  /** Removing full stops works piece by piece. */
  lemma {:induction false} RemoveDotsAppend(a: string, b: string)
    ensures RemoveDots(a + b) == RemoveDots(a) + RemoveDots(b)
  {
    if a != [] {
      var head := if a[0] == '.' then [] else [a[0]];
      assert (a + b)[0] == a[0] && (a + b)[1..] == a[1..] + b;
      RemoveDotsAppend(a[1..], b);
      calc {
        RemoveDots(a + b);
        head + RemoveDots(a[1..] + b);
        head + (RemoveDots(a[1..]) + RemoveDots(b));
        (head + RemoveDots(a[1..])) + RemoveDots(b);
      }
    } else {
      assert a + b == b;
    }
  }

  /** A text without full stops is left as it is. */
  lemma {:induction false} RemoveDotsNone(s: string)
    requires '.' !in s
    ensures RemoveDots(s) == s
  {
    if s != [] {
      RemoveDotsNone(s[1..]);
    }
  }

  // ---------------------------------------------------------------------
  // str.split() with no separator
  // ---------------------------------------------------------------------

  /** The characters Python's `str.isspace` accepts, which are the ones
      `str.split()` splits on. */
  predicate IsSpace(c: char) {
    || '\t' <= c <= '\r'
    || '\U{1C}' <= c <= ' '
    || c == '\U{85}' || c == '\U{A0}' || c == '\U{1680}'
    || '\U{2000}' <= c <= '\U{200A}'
    || c == '\U{2028}' || c == '\U{2029}' || c == '\U{202F}' || c == '\U{205F}'
    || c == '\U{3000}'
  }

  predicate NoSpace(w: string) {
    forall i :: 0 <= i < |w| ==> !IsSpace(w[i])
  }

  /** A word `str.split()` can produce: non-empty and without whitespace. */
  predicate IsWord(w: string) {
    w != [] && NoSpace(w)
  }

  /** Scan `s` with `word` holding the characters of the word read so far:
      whitespace ends a non-empty word and is otherwise skipped, so runs of
      whitespace and leading or trailing whitespace yield no empty words. */
  function SplitFrom(s: string, word: string): (ws: seq<string>)
    ensures NoSpace(word) ==> forall i :: 0 <= i < |ws| ==> IsWord(ws[i])
  {
    if s == [] then (if word == [] then [] else [word])
    else if IsSpace(s[0]) then (if word == [] then [] else [word]) + SplitFrom(s[1..], [])
    else SplitFrom(s[1..], word + [s[0]])
  }

  /** `s.split()`: every piece is a word, and together the pieces are the
      visible characters of `s`, in order. */
  function Split(s: string): (ws: seq<string>)
    ensures forall i :: 0 <= i < |ws| ==> IsWord(ws[i])
    ensures Concat(ws) == Visible(s)
  {
    SplitFromKeepsText(s, []);
    SplitFrom(s, [])
  }

  /** The non-whitespace characters of `s`, in order. */
  function Visible(s: string): string
  {
    if s == [] then [] else (if IsSpace(s[0]) then [] else [s[0]]) + Visible(s[1..])
  }

  /** The concatenation of a list of words. */
  function Concat(ws: seq<string>): string
  {
    if ws == [] then [] else ws[0] + Concat(ws[1..])
  }

  /** `" ".join(ws)`. */
  function Join(ws: seq<string>): string
  {
    if ws == [] then [] else if |ws| == 1 then ws[0] else ws[0] + " " + Join(ws[1..])
  }

  lemma {:induction false} ConcatAppend(a: seq<string>, b: seq<string>)
    ensures Concat(a + b) == Concat(a) + Concat(b)
  {
    if a != [] {
      assert (a + b)[0] == a[0] && (a + b)[1..] == a[1..] + b;
      ConcatAppend(a[1..], b);
      calc {
        Concat(a + b);
        a[0] + Concat(a[1..] + b);
        a[0] + (Concat(a[1..]) + Concat(b));
        (a[0] + Concat(a[1..])) + Concat(b);
      }
    } else {
      assert a + b == b;
    }
  }

  /** Splitting loses no visible character and invents none: the words,
      put back together, are the text without its whitespace. */
  lemma {:induction false} SplitFromKeepsText(s: string, word: string)
    ensures Concat(SplitFrom(s, word)) == word + Visible(s)
  {
    if s == [] {
      assert Concat([word]) == word + Concat([]);
    } else if IsSpace(s[0]) {
      SplitFromKeepsText(s[1..], []);
      var rest := SplitFrom(s[1..], []);
      assert Visible(s) == Visible(s[1..]);
      if word != [] {
        ConcatAppend([word], rest);
        assert Concat([word]) == word + Concat([]);
      } else {
        assert SplitFrom(s, word) == rest;
      }
    } else {
      SplitFromKeepsText(s[1..], word + [s[0]]);
      assert Visible(s) == [s[0]] + Visible(s[1..]);
    }
  }

  /** Every visible character of `s` occurs in `s`. */
  lemma {:induction false} VisibleWithin(s: string)
    ensures forall c :: c in Visible(s) ==> c in s
  {
    if s != [] {
      VisibleWithin(s[1..]);
    }
  }

  /** Every character of every word occurs in their concatenation. */
  lemma {:induction false} ConcatWithin(ws: seq<string>)
    ensures forall i, c :: 0 <= i < |ws| && c in ws[i] ==> c in Concat(ws)
  {
    if ws != [] {
      ConcatWithin(ws[1..]);
      assert forall i :: 1 <= i < |ws| ==> ws[i] == ws[1..][i - 1];
    }
  }

  /** A text without full stops splits into words without full stops. */
  lemma SplitHasNoDots(s: string)
    requires '.' !in s
    ensures forall i :: 0 <= i < |Split(s)| ==> '.' !in Split(s)[i]
  {
    var ws := Split(s);
    VisibleWithin(s);
    ConcatWithin(ws);
  }

  /** Reading a whitespace-free stretch only extends the current word. */
  lemma {:induction false} SplitFromNoSpace(w: string, rest: string, word: string)
    requires NoSpace(w)
    ensures SplitFrom(w + rest, word) == SplitFrom(rest, word + w)
  {
    if w != [] {
      assert (w + rest)[1..] == w[1..] + rest;
      assert word + [w[0]] + w[1..] == word + w;
      SplitFromNoSpace(w[1..], rest, word + [w[0]]);
    } else {
      assert w + rest == rest && word + w == word;
    }
  }

  /** Splitting undoes joining with single spaces: `" ".join(ws).split() == ws`
      whenever every entry is a word. */
  lemma {:induction false} SplitJoin(ws: seq<string>)
    requires forall i :: 0 <= i < |ws| ==> IsWord(ws[i])
    ensures Split(Join(ws)) == ws
  {
    if |ws| == 1 {
      SplitFromNoSpace(ws[0], [], []);
      assert ws[0] + [] == ws[0] && [] + ws[0] == ws[0];
    } else if |ws| > 1 {
      var rest := Join(ws[1..]);
      assert ws[0] + " " + rest == ws[0] + (" " + rest);
      SplitFromNoSpace(ws[0], " " + rest, []);
      assert [] + ws[0] == ws[0];
      assert (" " + rest)[1..] == rest;
      SplitJoin(ws[1..]);
      assert ws == [ws[0]] + ws[1..];
    }
  }

  /** How `SplitFrom` reads the first character of its input. */
  lemma SplitFromFirst(x: char, rest: string, word: string)
    ensures SplitFrom([x] + rest, word) ==
      if IsSpace(x) then (if word == [] then [] else [word]) + SplitFrom(rest, [])
      else SplitFrom(rest, word + [x])
  {
    assert ([x] + rest)[0] == x && ([x] + rest)[1..] == rest;
  }

  /** Whitespace splits independently on both of its sides. */
  lemma {:induction false} SplitAtSpace(a: string, c: char, b: string, word: string)
    requires IsSpace(c)
    ensures SplitFrom(a + [c] + b, word) == SplitFrom(a, word) + Split(b)
  {
    if a == [] {
      assert a + [c] + b == [c] + b;
      SplitFromFirst(c, b, word);
    } else {
      var x, tail := a[0], a[1..];
      assert a == [x] + tail;
      assert a + [c] + b == [x] + (tail + [c] + b);
      SplitFromFirst(x, tail, word);
      SplitFromFirst(x, tail + [c] + b, word);
      if IsSpace(x) {
        SplitAtSpace(tail, c, b, []);
      } else {
        SplitAtSpace(tail, c, b, word + [x]);
      }
    }
  }

  // ---------------------------------------------------------------------
  // sorted(list(set(words)))
  // ---------------------------------------------------------------------

  /** Python's `a < b` on strings: code point by code point, and a proper
      prefix comes first. */
  predicate Less(a: string, b: string) {
    if a == [] then b != []
    else if b == [] then false
    else if a[0] != b[0] then a[0] < b[0]
    else Less(a[1..], b[1..])
  }

  lemma {:induction false} LessIrreflexive(a: string)
    ensures !Less(a, a)
  {
    if a != [] {
      LessIrreflexive(a[1..]);
    }
  }

  lemma {:induction false} LessTransitive(a: string, b: string, c: string)
    requires Less(a, b) && Less(b, c)
    ensures Less(a, c)
  {
    if a != [] && b != [] && c != [] && a[0] == b[0] == c[0] {
      LessTransitive(a[1..], b[1..], c[1..]);
    }
  }

  /** Any two different strings are ordered one way or the other. */
  lemma {:induction false} LessTotal(a: string, b: string)
    requires a != b
    ensures Less(a, b) || Less(b, a)
  {
    if a != [] && b != [] && a[0] == b[0] {
      assert a == [a[0]] + a[1..] && b == [b[0]] + b[1..];
      LessTotal(a[1..], b[1..]);
    }
  }

  lemma LessAsymmetric(a: string, b: string)
    requires Less(a, b)
    ensures !Less(b, a)
  {
    if Less(b, a) {
      LessTransitive(a, b, a);
      LessIrreflexive(a);
    }
  }

  predicate StrictlySorted(v: seq<string>) {
    forall i, j :: 0 <= i < j < |v| ==> Less(v[i], v[j])
  }

  /** Put `w` into the sorted list `v` unless it is there already. */
  function Insert(w: string, v: seq<string>): seq<string>
  {
    if v == [] then [w]
    else if w == v[0] then v
    else if Less(w, v[0]) then [w] + v
    else [v[0]] + Insert(w, v[1..])
  }

  lemma {:induction false} InsertSorted(w: string, v: seq<string>)
    requires StrictlySorted(v)
    ensures StrictlySorted(Insert(w, v))
    ensures forall x :: x in Insert(w, v) <==> x in v || x == w
  {
    if v != [] && w != v[0] {
      if Less(w, v[0]) {
        forall j | 0 < j < |v| ensures Less(w, v[j]) {
          LessTransitive(w, v[0], v[j]);
        }
      } else {
        InsertSorted(w, v[1..]);
        LessTotal(w, v[0]);
        var r := Insert(w, v[1..]);
        forall j | 0 <= j < |r| ensures Less(v[0], r[j]) {
          assert r[j] in v[1..] || r[j] == w;
          if r[j] in v[1..] {
            var k :| 0 <= k < |v[1..]| && v[1..][k] == r[j];
            assert v[k + 1] == r[j];
          }
        }
      }
    }
  }

  /** `sorted(list(set(ws)))`: the distinct words of `ws` in ascending order. */
  function SortedDistinct(ws: seq<string>): (v: seq<string>)
    ensures StrictlySorted(v)
    ensures forall w :: w in v <==> w in ws
  {
    if ws == [] then []
    else
      var v := SortedDistinct(ws[..|ws| - 1]);
      InsertSorted(ws[|ws| - 1], v);
      assert ws == ws[..|ws| - 1] + [ws[|ws| - 1]];
      Insert(ws[|ws| - 1], v)
  }

  /** The tail of a strictly ascending list holds every element but the first. */
  lemma SortedTail(a: seq<string>, w: string)
    requires StrictlySorted(a) && a != []
    ensures w in a[1..] <==> w in a && w != a[0]
  {
    if w in a[1..] {
      var i :| 0 <= i < |a[1..]| && a[1..][i] == w;
      assert Less(a[0], a[i + 1]);
      LessIrreflexive(a[0]);
    }
    if w in a && w != a[0] {
      var k :| 0 <= k < |a| && a[k] == w;
      assert a[1..][k - 1] == w;
    }
  }

  /** A strictly ascending list is determined by its elements: whatever way
      the distinct words are sorted, the vocabulary is the same. */
  lemma {:induction false} SortedUnique(a: seq<string>, b: seq<string>)
    requires StrictlySorted(a) && StrictlySorted(b)
    requires forall w :: w in a <==> w in b
    ensures a == b
  {
    assert a != [] <==> b != [] by {
      if a != [] { assert a[0] in a; }
      if b != [] { assert b[0] in b; }
    }
    if a != [] {
      assert a[0] in a;
      assert b[0] in b;
      if a[0] != b[0] {
        var k :| 0 <= k < |b| && b[k] == a[0];
        var m :| 0 <= m < |a| && a[m] == b[0];
        assert Less(a[0], a[m]);
        assert Less(b[0], b[k]);
        LessAsymmetric(b[0], b[k]);
      }
      forall w ensures w in a[1..] <==> w in b[1..] {
        SortedTail(a, w);
        SortedTail(b, w);
      }
      SortedUnique(a[1..], b[1..]);
      assert a == [a[0]] + a[1..] && b == [b[0]] + b[1..];
    }
  }

  // ---------------------------------------------------------------------
  // word_to_id and id_to_word
  // ---------------------------------------------------------------------

  /** `{word: i for i, word in enumerate(vocab)}`: a word listed twice keeps
      the index of its last occurrence. */
  function WordToId(vocab: seq<string>): (ids: map<string, nat>)
    ensures forall w :: w in ids <==> w in vocab
    ensures forall w :: w in ids ==> ids[w] < |vocab| && vocab[ids[w]] == w
    ensures forall w, j :: w in ids && ids[w] < j < |vocab| ==> vocab[j] != w
  {
    if vocab == [] then map[]
    else
      var n := |vocab| - 1;
      assert vocab == vocab[..n] + [vocab[n]];
      WordToId(vocab[..n])[vocab[n] := n]
  }

  /** `{i: word for word, i in word_to_id.items()}`: the inverse map. */
  function IdToWord(vocab: seq<string>): (words: map<nat, string>)
    ensures forall w :: w in WordToId(vocab) ==> WordToId(vocab)[w] in words && words[WordToId(vocab)[w]] == w
    ensures forall i :: i in words ==> words[i] in WordToId(vocab) && WordToId(vocab)[words[i]] == i
  {
    var ids := WordToId(vocab);
    map w | w in ids :: ids[w] := w
  }

  predicate Distinct(v: seq<string>) {
    forall i, j :: 0 <= i < j < |v| ==> v[i] != v[j]
  }

  /** In a vocabulary without repetitions every word's id is its position. */
  lemma IdsArePositions(vocab: seq<string>, i: nat)
    requires Distinct(vocab) && i < |vocab|
    ensures vocab[i] in WordToId(vocab) && WordToId(vocab)[vocab[i]] == i
  {
    assert vocab[i] in vocab;
  }

  /** For a vocabulary without repetitions the two maps are a bijection
      between its words and the ids `0 .. |vocab| - 1`. */
  lemma IdsAreBijection(vocab: seq<string>)
    requires Distinct(vocab)
    ensures forall i :: 0 <= i < |vocab| ==> vocab[i] in WordToId(vocab) && WordToId(vocab)[vocab[i]] == i
    ensures forall i: nat :: i in IdToWord(vocab) <==> i < |vocab|
    ensures forall i :: 0 <= i < |vocab| ==> IdToWord(vocab)[i] == vocab[i]
  {
    var ids := WordToId(vocab);
    var words := IdToWord(vocab);
    forall i | 0 <= i < |vocab|
      ensures vocab[i] in ids && ids[vocab[i]] == i
      ensures i in words && words[i] == vocab[i]
    {
      IdsArePositions(vocab, i);
    }
    forall i: nat | i in words
      ensures i < |vocab|
    {
      assert words[i] in ids && ids[words[i]] == i;
    }
  }

  /** A strictly sorted list never repeats a word. */
  lemma SortedIsDistinct(v: seq<string>)
    requires StrictlySorted(v)
    ensures Distinct(v)
  {
    forall i, j | 0 <= i < j < |v| ensures v[i] != v[j] {
      if v[i] == v[j] {
        LessIrreflexive(v[i]);
      }
    }
  }

  // ---------------------------------------------------------------------
  // The toy model's vocabulary
  // ---------------------------------------------------------------------

  /** `words = text.replace(".", "").split()`. */
  function Words(text: string): (ws: seq<string>)
    ensures forall i :: 0 <= i < |ws| ==> IsWord(ws[i]) && '.' !in ws[i]
  {
    SplitHasNoDots(RemoveDots(text));
    Split(RemoveDots(text))
  }

  /** `vocab = sorted(list(set(words)))`. */
  function Vocab(text: string): (v: seq<string>)
    ensures StrictlySorted(v)
    ensures forall w :: w in v <==> w in Words(text)
    ensures forall i :: 0 <= i < |v| ==> IsWord(v[i]) && '.' !in v[i]
  {
    assert forall w :: w in Words(text) ==> IsWord(w) && '.' !in w;
    SortedDistinct(Words(text))
  }

  const TextWords: seq<string> := ["the", "cat", "sat", "the", "cat", "ate", "the", "dog", "sat"]
  const TextVocab: seq<string> := ["ate", "cat", "dog", "sat", "the"]

  /** Words on both sides of a space are split independently. */
  lemma WordsAtSpace(a: string, b: string)
    ensures Words(a + " " + b) == Words(a) + Words(b)
  {
    RemoveDotsAppend(a + " ", b);
    RemoveDotsAppend(a, " ");
    assert " "[1..] == [];
    assert RemoveDots(" ") == [' '];
    assert RemoveDots(a + " " + b) == RemoveDots(a) + [' '] + RemoveDots(b);
    SplitAtSpace(RemoveDots(a), ' ', RemoveDots(b), []);
  }

  /** A sentence of the text: three words, single spaces, a full stop. */
  function Sentence(w0: string, w1: string, w2: string): string
  {
    w0 + " " + w1 + " " + w2 + "."
  }

  /** The full stop is the only character of a sentence that goes. */
  lemma SentenceWithoutDot(w0: string, w1: string, w2: string)
    requires '.' !in w0 && '.' !in w1 && '.' !in w2
    ensures RemoveDots(Sentence(w0, w1, w2)) == w0 + " " + w1 + " " + w2
  {
    var body := w0 + " " + w1 + " " + w2;
    assert Sentence(w0, w1, w2) == body + ".";
    RemoveDotsAppend(body, ".");
    assert '.' !in body;
    RemoveDotsNone(body);
    assert "."[1..] == [];
    assert RemoveDots(".") == [];
  }

  /** Three words joined by single spaces split back into them. */
  lemma SplitThree(w0: string, w1: string, w2: string)
    requires IsWord(w0) && IsWord(w1) && IsWord(w2)
    ensures Split(w0 + " " + w1 + " " + w2) == [w0, w1, w2]
  {
    var ws := [w0, w1, w2];
    assert ws[1..] == [w1, w2] && ws[1..][1..] == [w2];
    assert Join(ws[1..][1..]) == w2;
    assert Join(ws[1..]) == w1 + " " + w2;
    assert Join(ws) == w0 + " " + (w1 + " " + w2);
    assert w0 + " " + (w1 + " " + w2) == w0 + " " + w1 + " " + w2;
    SplitJoin(ws);
  }

  /** The words of a sentence are its three words. */
  lemma SentenceWords(w0: string, w1: string, w2: string)
    requires IsWord(w0) && IsWord(w1) && IsWord(w2)
    requires '.' !in w0 && '.' !in w1 && '.' !in w2
    ensures Words(Sentence(w0, w1, w2)) == [w0, w1, w2]
  {
    SentenceWithoutDot(w0, w1, w2);
    SplitThree(w0, w1, w2);
  }

  /** The text is three sentences separated by single spaces. */
  lemma TextSentences()
    ensures Text == Sentence("the", "cat", "sat") + " " + (Sentence("the", "cat", "ate") + " " + Sentence("the", "dog", "sat"))
  {
  }

  /** Three sentences separated by single spaces give their nine words. */
  lemma WordsOfSentences(a: seq<string>, b: seq<string>, c: seq<string>)
    requires |a| == |b| == |c| == 3
    requires forall i :: 0 <= i < 3 ==> IsWord(a[i]) && '.' !in a[i]
    requires forall i :: 0 <= i < 3 ==> IsWord(b[i]) && '.' !in b[i]
    requires forall i :: 0 <= i < 3 ==> IsWord(c[i]) && '.' !in c[i]
    ensures Words(Sentence(a[0], a[1], a[2]) + " " + (Sentence(b[0], b[1], b[2]) + " " + Sentence(c[0], c[1], c[2]))) == a + b + c
  {
    var s1, s2, s3 := Sentence(a[0], a[1], a[2]), Sentence(b[0], b[1], b[2]), Sentence(c[0], c[1], c[2]);
    WordsAtSpace(s1, s2 + " " + s3);
    WordsAtSpace(s2, s3);
    SentenceWords(a[0], a[1], a[2]);
    SentenceWords(b[0], b[1], b[2]);
    SentenceWords(c[0], c[1], c[2]);
    assert [a[0], a[1], a[2]] == a && [b[0], b[1], b[2]] == b && [c[0], c[1], c[2]] == c;
  }

  /** The nine words of the text are words without full stops. */
  lemma TextWordsAreWords()
    ensures forall i :: 0 <= i < |TextWords| ==> IsWord(TextWords[i]) && '.' !in TextWords[i]
  {
  }

  /** The text has nine words. */
  lemma WordsOfText()
    ensures Words(Text) == TextWords
  {
    TextSentences();
    TextWordsAreWords();
    var a, b, c := TextWords[..3], TextWords[3..6], TextWords[6..];
    assert a + b + c == TextWords;
    WordsOfSentences(a, b, c);
  }

  /** Whatever list is strictly ascending and holds exactly the words of a
      text is that text's vocabulary. */
  lemma VocabIs(text: string, v: seq<string>)
    requires StrictlySorted(v)
    requires forall w :: w in v <==> w in Words(text)
    ensures Vocab(text) == v
  {
    SortedUnique(Vocab(text), v);
  }

  /** The five words are in ascending order. */
  lemma TextVocabSorted()
    ensures StrictlySorted(TextVocab)
  {
    assert Less("ate", "cat") && Less("cat", "dog") && Less("dog", "sat") && Less("sat", "the");
    forall i, j | 0 <= i < j < |TextVocab| ensures Less(TextVocab[i], TextVocab[j]) {
      if j > i + 1 {
        LessTransitive(TextVocab[i], TextVocab[j - 1], TextVocab[j]);
      }
    }
  }

  /** The vocabulary is `["ate", "cat", "dog", "sat", "the"]`: five words. */
  lemma VocabOfText()
    ensures Vocab(Text) == TextVocab
    ensures |Vocab(Text)| == 5
  {
    WordsOfText();
    TextVocabSorted();
    assert forall w :: w in TextVocab <==> w in TextWords;
    VocabIs(Text, TextVocab);
  }

  /** The vocabulary of the text has five distinct words, 'cat' second and
      'the' last. */
  lemma VocabPositions()
    ensures |TextVocab| == 5 && Distinct(TextVocab)
    ensures TextVocab[1] == "cat" && TextVocab[4] == "the"
  {
    TextVocabSorted();
    SortedIsDistinct(TextVocab);
  }

  /** The ids of a five-word vocabulary without repetitions that has 'cat'
      second and 'the' last, as the vocabulary of the text has (see
      `VocabPositions`): 'the' is 4, 'cat' is 1, and the ids are `0 .. 4`. */
  lemma IdsInVocab(v: seq<string>)
    requires |v| == 5 && Distinct(v) && v[1] == "cat" && v[4] == "the"
    ensures WordToId(v)["the"] == 4 && WordToId(v)["cat"] == 1
    ensures forall i: nat :: i in IdToWord(v) <==> i < 5
    ensures IdToWord(v)[4] == "the" && IdToWord(v)[1] == "cat"
  {
    IdsAreBijection(v);
  }
}
