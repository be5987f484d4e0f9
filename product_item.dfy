/** The product card's text: the title cut to twenty characters, and
    category and brand capitalised word by word
    (`s.split(" ").map(w => w.charAt(0).toUpperCase() + w.slice(1)).join(" ")`). */
module ProductItem {
  import opened Text
  import opened Catalog

  const TitleLength := 20

  /** `word.charAt(0).toUpperCase() + word.slice(1)` */
  function CapitalizeWord(word: string): (r: string)
    ensures |r| == |word|
    ensures word == [] ==> r == []
    ensures word != [] ==> r[0] == UpperChar(word[0]) && r[1..] == word[1..]
  {
    if word == [] then [] else [UpperChar(word[0])] + word[1..]
  }

  /** `s.split(" ")`: the pieces between single spaces; consecutive spaces
      give empty pieces and there is always at least one piece. */
  function Split(s: string): (words: seq<string>)
    ensures |words| >= 1
    decreases |s|
  {
    if s == [] then [""]
    else if s[0] == ' ' then [""] + Split(s[1..])
    else
      var rest := Split(s[1..]);
      [[s[0]] + rest[0]] + rest[1..]
  }

  /** `words.join(" ")` */
  function Join(words: seq<string>): string
    decreases |words|
  {
    if words == [] then ""
    else if |words| == 1 then words[0]
    else words[0] + " " + Join(words[1..])
  }

  function CapitalizeAll(words: seq<string>): seq<string> {
    seq(|words|, i requires 0 <= i < |words| => CapitalizeWord(words[i]))
  }

  /** Capitalise the first character of every space-separated word. */
  function Capitalize(s: string): string {
    Join(CapitalizeAll(Split(s)))
  }

  // ---------------------------------------------------------------------
  // A character-by-character reference for Capitalize

  /** Position i starts a word: it is first, or follows a space. */
  predicate StartsWord(s: string, i: int)
    requires 0 <= i < |s|
  {
    i == 0 || s[i - 1] == ' '
  }

  /** Capitalisation written as one left-to-right pass; `atStart` says
      whether the first character begins a word. */
  function CapitalizeFrom(s: string, atStart: bool): string
    decreases |s|
  {
    if s == [] then []
    else if s[0] == ' ' then [' '] + CapitalizeFrom(s[1..], true)
    else [if atStart then UpperChar(s[0]) else s[0]] + CapitalizeFrom(s[1..], false)
  }

  /** Capitalise every word, or every word but the first. */
  function CapitalizeWords(words: seq<string>, atStart: bool): seq<string>
    requires |words| >= 1
  {
    if atStart then CapitalizeAll(words) else [words[0]] + CapitalizeAll(words[1..])
  }

  lemma JoinOfConsChar(c: char, words: seq<string>)
    requires |words| >= 1
    ensures Join([[c] + words[0]] + words[1..]) == [c] + Join(words)
  {
    var ws := [[c] + words[0]] + words[1..];
    if |words| > 1 {
      assert ws[1..] == words[1..];
    }
  }

  lemma JoinOfEmptyFirst(words: seq<string>)
    requires |words| >= 1
    ensures Join([""] + words) == " " + Join(words)
  {
    assert ([""] + words)[1..] == words;
  }

  lemma CapitalizeAllCons(word: string, words: seq<string>)
    ensures CapitalizeAll([word] + words) == [CapitalizeWord(word)] + CapitalizeAll(words)
  {
  }

  lemma {:induction false} CapitalizeWordsOfSplit(s: string, atStart: bool)
    ensures Join(CapitalizeWords(Split(s), atStart)) == CapitalizeFrom(s, atStart)
    decreases |s|
  {
    if s == [] {
    } else if s[0] == ' ' {
      var rest := Split(s[1..]);
      assert Split(s) == [""] + rest;
      CapitalizeWordsOfSplit(s[1..], true);
      CapitalizeAllCons("", rest);
      assert ([""] + rest)[1..] == rest;
      assert CapitalizeWords(Split(s), atStart) == [""] + CapitalizeAll(rest);
      JoinOfEmptyFirst(CapitalizeAll(rest));
      assert CapitalizeFrom(s, atStart) == [' '] + CapitalizeFrom(s[1..], true);
    } else {
      var rest := Split(s[1..]);
      var first := [s[0]] + rest[0];
      assert Split(s) == [first] + rest[1..];
      CapitalizeWordsOfSplit(s[1..], false);
      var c := if atStart then UpperChar(s[0]) else s[0];
      assert first[1..] == rest[0];
      CapitalizeAllCons(first, rest[1..]);
      assert ([first] + rest[1..])[1..] == rest[1..];
      assert CapitalizeWords(Split(s), atStart) == [[c] + rest[0]] + CapitalizeAll(rest[1..]);
      var w := CapitalizeWords(rest, false);
      assert w[0] == rest[0] && w[1..] == CapitalizeAll(rest[1..]);
      JoinOfConsChar(c, w);
      assert CapitalizeFrom(s, atStart) == [c] + CapitalizeFrom(s[1..], false);
    }
  }

  lemma {:induction false} CapitalizeFromAt(s: string, atStart: bool, i: int)
    requires 0 <= i < |s|
    ensures |CapitalizeFrom(s, atStart)| == |s|
    ensures CapitalizeFrom(s, atStart)[i] ==
      if (if i == 0 then atStart else s[i - 1] == ' ') then UpperChar(s[i]) else s[i]
    decreases |s|
  {
    if |s| > 1 {
      CapitalizeFromAt(s[1..], s[0] == ' ', if i == 0 then 0 else i - 1);
    } else {
      assert CapitalizeFrom(s[1..], s[0] == ' ') == [];
    }
  }

  /** Capitalize agrees with the reference: the same length, and each
      character upper-cased exactly when it starts a word. */
  lemma CapitalizeSpec(s: string)
    ensures |Capitalize(s)| == |s|
    ensures forall i :: 0 <= i < |s| ==>
      Capitalize(s)[i] == if StartsWord(s, i) then UpperChar(s[i]) else s[i]
  {
    CapitalizeWordsOfSplit(s, true);
    if s == [] {
    } else {
      CapitalizeFromAt(s, true, 0);
    }
    forall i | 0 <= i < |s|
      ensures Capitalize(s)[i] == if StartsWord(s, i) then UpperChar(s[i]) else s[i]
    {
      CapitalizeFromAt(s, true, i);
    }
  }

  /** Spaces stay where they were and nothing else becomes a space. */
  lemma CapitalizeKeepsSpaces(s: string)
    ensures |Capitalize(s)| == |s|
    ensures forall i :: 0 <= i < |s| ==> (Capitalize(s)[i] == ' ' <==> s[i] == ' ')
  {
    CapitalizeSpec(s);
    forall i | 0 <= i < |s| ensures Capitalize(s)[i] == ' ' <==> s[i] == ' ' {
      UpperCharFacts(s[i]);
    }
  }

  /** Capitalising twice is capitalising once. */
  lemma CapitalizeIdempotent(s: string)
    ensures Capitalize(Capitalize(s)) == Capitalize(s)
  {
    var r := Capitalize(s);
    CapitalizeKeepsSpaces(s);
    CapitalizeSpec(s);
    CapitalizeSpec(r);
    forall i | 0 <= i < |s| ensures Capitalize(r)[i] == r[i] {
      assert StartsWord(r, i) == StartsWord(s, i);
      UpperCharFacts(s[i]);
    }
  }

  // ---------------------------------------------------------------------
  // Split and Join undo each other

  lemma {:induction false} JoinSplit(s: string)
    ensures Join(Split(s)) == s
    decreases |s|
  {
    if s == [] {
    } else if s[0] == ' ' {
      JoinSplit(s[1..]);
      JoinOfEmptyFirst(Split(s[1..]));
    } else {
      JoinSplit(s[1..]);
      JoinOfConsChar(s[0], Split(s[1..]));
    }
  }

  predicate SpaceFree(word: string) {
    forall i :: 0 <= i < |word| ==> word[i] != ' '
  }

  lemma {:induction false} SplitOfSpaceFreePrefix(word: string, rest: string)
    requires SpaceFree(word)
    ensures Split(word + rest) == [word + Split(rest)[0]] + Split(rest)[1..]
    decreases |word|
  {
    if word == [] {
      var r := Split(rest);
      assert word + rest == rest && word + r[0] == r[0];
      assert r == [r[0]] + r[1..];
    } else {
      var r := Split(rest);
      assert (word + rest)[0] == word[0] && (word + rest)[1..] == word[1..] + rest;
      SplitOfSpaceFreePrefix(word[1..], rest);
      var inner := Split(word[1..] + rest);
      assert Split(word + rest) == [[word[0]] + inner[0]] + inner[1..];
      assert [word[0]] + (word[1..] + r[0]) == word + r[0];
    }
  }

  lemma {:induction false} SplitJoin(words: seq<string>)
    requires |words| >= 1
    requires forall k :: 0 <= k < |words| ==> SpaceFree(words[k])
    ensures Split(Join(words)) == words
    decreases |words|
  {
    if |words| == 1 {
      SplitOfSpaceFreePrefix(words[0], "");
      assert words[0] + "" == words[0];
    } else {
      var tail := Join(words[1..]);
      SplitJoin(words[1..]);
      assert Join(words) == words[0] + (" " + tail);
      SplitOfSpaceFreePrefix(words[0], " " + tail);
      assert (" " + tail)[0] == ' ' && (" " + tail)[1..] == tail;
      assert Split(" " + tail) == [""] + words[1..];
      assert words[0] + "" == words[0];
      assert words == [words[0]] + words[1..];
    }
  }

  /** Word by word: the words of the capitalised text are the capitalised
      words of the text, so empty words stay empty and only first
      characters change. */
  lemma CapitalizeWordwise(s: string)
    ensures Split(Capitalize(s)) == CapitalizeAll(Split(s))
  {
    var words := Split(s);
    JoinSplit(s);
    forall k | 0 <= k < |words| ensures SpaceFree(words[k]) {
      SplitWordsSpaceFree(s, k);
    }
    var caps := CapitalizeAll(words);
    forall k | 0 <= k < |caps| ensures SpaceFree(caps[k]) {
      forall j | 0 <= j < |caps[k]| ensures caps[k][j] != ' ' {
        if j == 0 {
          UpperCharFacts(words[k][0]);
        }
      }
    }
    SplitJoin(caps);
  }

  lemma {:induction false} SplitWordsSpaceFree(s: string, k: int)
    requires 0 <= k < |Split(s)|
    ensures SpaceFree(Split(s)[k])
    decreases |s|
  {
    if s == [] {
    } else if s[0] == ' ' {
      if k > 0 {
        SplitWordsSpaceFree(s[1..], k - 1);
      }
    } else {
      SplitWordsSpaceFree(s[1..], k);
    }
  }

  // ---------------------------------------------------------------------
  // The card

  datatype Card = Card(title: string, category: string, brand: string)

  /** A missing category or brand renders blank; a present one is
      capitalised word by word, so `CapitalizeWordwise` and
      `CapitalizeIdempotent` apply to it. */
  function FormatLabel(text: Option<string>): (r: string)
    ensures text.None? ==> r == ""
    ensures text.Some? ==> r == Capitalize(text.value)
    ensures text.Some? ==> |r| == |text.value|
    ensures text.Some? ==> forall i :: 0 <= i < |r| ==>
      r[i] == if StartsWord(text.value, i) then UpperChar(text.value[i]) else text.value[i]
  {
    match text
    case None => ""
    case Some(s) => CapitalizeSpec(s); Capitalize(s)
  }

  function FormatCard(p: Product): (card: Card)
    ensures card.title <= p.title
    ensures |card.title| == if |p.title| < TitleLength then |p.title| else TitleLength
    ensures card.category == FormatLabel(p.category) && card.brand == FormatLabel(p.brand)
  {
    Card(Prefix(p.title, TitleLength), FormatLabel(p.category), FormatLabel(p.brand))
  }

  /** An absent product renders nothing. */
  function Render(p: Option<Product>): (card: Option<Card>)
    ensures card.None? <==> p.None?
    ensures card.Some? ==> card.value == FormatCard(p.value)
    ensures card.Some? ==> card.value.title <= p.value.title
  {
    match p
    case None => None
    case Some(product) => Some(FormatCard(product))
  }

  /** Category and brand go through the same formatting: exchanging them in
      the product exchanges them on the card. */
  lemma BrandFormattedLikeCategory(p: Product)
    ensures var swapped := p.(category := p.brand, brand := p.category);
      FormatCard(swapped).category == FormatCard(p).brand &&
      FormatCard(swapped).brand == FormatCard(p).category
  {
  }
}
