/**
 * The body of src/dataPreprocessing.py between reading and writing files:
 * clean the `title` and `text` columns of the train and test tables, add
 * `combined_text` = title + " " + text, fit a CountVectorizer(max_features=500,
 * min_df=2) on the training column and apply it to the test column.
 */
module FeaturePreparation {
  import opened Chars
  import opened Wrappers
  import opened TextCleaning
  import opened Vectorizer

  /** A column after `.apply(preprocess_text)`. */
  function CleanColumn(col: seq<string>, stop: set<string>): seq<string> {
    seq(|col|, i requires 0 <= i < |col| => Preprocess(col[i], stop))
  }

  /** `df['title'] + ' ' + df['text']`, row by row. */
  function Combine(title: seq<string>, text: seq<string>): seq<string>
    requires |title| == |text|
  {
    seq(|title|, i requires 0 <= i < |title| => title[i] + " " + text[i])
  }

  /** The columns of a table that the script reads and writes. */
  class TextFrame {
    var title: seq<string>
    var text: seq<string>
    var combinedText: Option<seq<string>>

    ghost predicate Valid()
      reads this
    {
      |title| == |text| && (combinedText.Some? ==> |combinedText.value| == |title|)
    }

    constructor (title: seq<string>, text: seq<string>)
      requires |title| == |text|
      ensures Valid()
      ensures this.title == title && this.text == text && combinedText == None
    {
      this.title := title;
      this.text := text;
      combinedText := None;
    }

    /** `df['title'] = df['title'].apply(preprocess_text)`, then the same for `text`. */
    method CleanTextColumns(stop: set<string>)
      requires Valid()
      modifies this
      ensures Valid()
      ensures title == CleanColumn(old(title), stop) && text == CleanColumn(old(text), stop)
      ensures combinedText == old(combinedText)
    {
      title := CleanColumn(title, stop);
      text := CleanColumn(text, stop);
    }

    /** `df['combined_text'] = df['title'] + ' ' + df['text']`. */
    method AddCombinedText()
      requires Valid()
      modifies this
      ensures Valid()
      ensures title == old(title) && text == old(text)
      ensures combinedText == Some(Combine(title, text))
    {
      combinedText := Some(Combine(title, text));
    }
  }

  /**
   * The script: clean both tables, add `combined_text`, fit the vectorizer on
   * the training column (which raises on a ValueError) and transform the test
   * column with the vocabulary learned from training.
   */
  method PrepareFeatures(train: TextFrame, test: TextFrame, stop: set<string>)
    returns (vectorizer: CountVectorizer, r: Result<(seq<seq<nat>>, seq<seq<nat>>), VectorizerError>)
    requires train != test
    requires train.Valid() && test.Valid()
    modifies train, test
    ensures train.Valid() && test.Valid()
    ensures train.title == CleanColumn(old(train.title), stop) && train.text == CleanColumn(old(train.text), stop)
    ensures test.title == CleanColumn(old(test.title), stop) && test.text == CleanColumn(old(test.text), stop)
    ensures train.combinedText == Some(Combine(train.title, train.text))
    ensures test.combinedText == Some(Combine(test.title, test.text))
    ensures fresh(vectorizer) && vectorizer.maxFeatures == 500 && vectorizer.minDf == 2
    ensures r.Failure? <==> FitFailure(train.combinedText.value, 2).Some?
    ensures r.Failure? ==> r.error == FitFailure(train.combinedText.value, 2).value
    ensures r.Success? ==>
      && vectorizer.vocabulary.Some?
      && IsFittedVocabulary(vectorizer.vocabulary.value, train.combinedText.value, 500, 2)
      && r.value.0 == CountMatrix(vectorizer.vocabulary.value, train.combinedText.value)
      && r.value.1 == CountMatrix(vectorizer.vocabulary.value, test.combinedText.value)
  {
    var frames := [train, test];
    for k := 0 to |frames|
      invariant forall j :: 0 <= j < |frames| ==> frames[j].Valid()
      invariant forall j :: 0 <= j < k ==>
        && frames[j].title == CleanColumn(old(frames[j].title), stop)
        && frames[j].text == CleanColumn(old(frames[j].text), stop)
      invariant forall j :: k <= j < |frames| ==>
        frames[j].title == old(frames[j].title) && frames[j].text == old(frames[j].text)
    {
      frames[k].CleanTextColumns(stop);
    }
    assert frames[0] == train && frames[1] == test;
    train.AddCombinedText();
    test.AddCombinedText();
    vectorizer := new CountVectorizer(500, 2);
    var trainMatrix := vectorizer.FitTransform(train.combinedText.value);
    if trainMatrix.Failure? {
      return vectorizer, Failure(trainMatrix.error);
    }
    var testMatrix := vectorizer.Transform(test.combinedText.value);
    r := Success((trainMatrix.value, testMatrix.value));
  }

  /**
   * Each row's combined text has exactly the vectorizer tokens of its title
   * followed by those of its text.
   */
  lemma CombinedColumnTokens(title: seq<string>, text: seq<string>)
    requires |title| == |text|
    ensures forall i :: 0 <= i < |title| ==>
      Analyze(Combine(title, text)[i]) == Analyze(title[i]) + Analyze(text[i])
  {
    forall i | 0 <= i < |title|
      ensures Analyze(Combine(title, text)[i]) == Analyze(title[i]) + Analyze(text[i])
    {
      CombinedTokens(title[i], text[i], []);
    }
  }

  /**
   * On a text without capitals and punctuation, the vectorizer's terms
   * consist of lower-case ASCII letters and digits only.
   */
  lemma PlainTextTerms(d: string)
    requires forall c :: c in d ==> !IsAsciiUpper(c) && !IsPunctuation(c)
    ensures forall t, i :: t in Analyze(d) && 0 <= i < |t| ==> ('a' <= t[i] <= 'z') || ('0' <= t[i] <= '9')
  {
    forall c | c in ToLower(d)
      ensures c in d
    {
      var i :| 0 <= i < |ToLower(d)| && ToLower(d)[i] == c;
      assert d[i] in d;
    }
    TokenizeChars(ToLower(d));
  }

  /**
   * A combined text built from cleaned columns yields only terms made of
   * lower-case ASCII letters and digits: the cleaner has removed capitals and
   * punctuation (the underscore included), so the vectorizer's lower-casing
   * changes nothing on it and its word characters are ASCII letters and digits.
   */
  lemma CleanedTermsAlphanumeric(title: string, text: string, stop: set<string>)
    ensures forall t, i :: t in Analyze(Preprocess(title, stop) + " " + Preprocess(text, stop)) && 0 <= i < |t| ==>
      ('a' <= t[i] <= 'z') || ('0' <= t[i] <= '9')
  {
    var a, b := Preprocess(title, stop), Preprocess(text, stop);
    PreprocessLowerCase(title, stop);
    PreprocessNoPunctuation(title, stop);
    PreprocessLowerCase(text, stop);
    PreprocessNoPunctuation(text, stop);
    SpacedCharacters(a, b);
    PlainTextTerms(a + " " + b);
  }

  /**
   * Joining two texts free of capitals and punctuation with a space keeps
   * them so. A step of its own so that the proof of CleanedTermsAlphanumeric
   * stays small.
   */
  lemma SpacedCharacters(a: string, b: string)
    requires forall c :: c in a ==> !IsAsciiUpper(c) && !IsPunctuation(c)
    requires forall c :: c in b ==> !IsAsciiUpper(c) && !IsPunctuation(c)
    ensures forall c :: c in a + " " + b ==> !IsAsciiUpper(c) && !IsPunctuation(c)
  {
  }
}
