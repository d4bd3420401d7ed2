# Fake-news data preparation, modelled in Dafny

This project models the data-preparation half of a fake-news classification
pipeline. There are two scripts.

- `src/dataIngestion.py` assembles the corpus:
  - it tags the rows of the fake and the true source with the labels "fake" and "true";
  - it concatenates the true rows before the fake rows;
  - it parses the `date` column and drops the rows whose date does not parse;
  - it encodes the labels as fake → 0 and true → 1;
  - it splits the table 80/20 into train and test with `train_test_split`, stratified on the label.
- `src/dataPreprocessing.py` turns text into features:
  - `preprocess_text` lower-cases a text;
  - it deletes HTML tags, URLs and e-mail addresses, then the 32 punctuation characters, then non-ASCII characters;
  - it splits on whitespace, drops stopwords and joins the remaining tokens with single spaces.
  - The script cleans the `title` and `text` columns of both tables and adds `combined_text`.
  - It fits a `CountVectorizer(max_features=500, min_df=2)` on the training column only.
  - It applies that vectorizer, unchanged, to the test column.

The Dafny modules follow these pieces:

- `Chars` holds the character classes and ASCII lower-casing.
- `Positions` holds lists of positions in a text, which the two tokenizers use to say where each token starts.
- `TextCleaning` models `preprocess_text` as pure functions.
  - The regular expression `<.*?>|http\S+|www\.\S+|\S+@\S+` is a left-to-right scan (`StripMarkup`). At each position it tries the four alternatives in order.
- `Vectorizer` models scikit-learn's `CountVectorizer` as a class.
  - Its vocabulary is set by `FitTransform` and only read by `Transform`.
  - The class uses loops for top-k selection, sorting and counting.
  - Each loop is proved against the specification functions `IsFittedVocabulary` and `CountMatrix`.
- `FeaturePreparation` models the body of the preprocessing script.
  - A `TextFrame` class has columns that are overwritten in place.
  - A loop runs over `[train, test]`.
  - The vectorizer is fitted on the training table and applied to the test table.
- `Ingestion` models the ingestion script.
  - A `Table` class has in-place label, date and label-encoding steps.
  - The row filter and the split are functions.
  - The split takes the shuffle that the seeded generator would draw as an input. Every property of it is proved for every permutation.

## Model

| member | source | states |
|---|---|---|
| Chars.IsSpace | src/dataPreprocessing.py:32-41 | Python's whitespace, shared by `\s`/`\S` of the regex and by `str.split()`: '\t'..'\r', 0x1C..' ' and the Unicode spaces (definition; partners `NonSpaceRun`, `RunStartsExact`) |
| Chars.IsPunctuation | src/dataPreprocessing.py:35 | the 32 characters of `string.punctuation` (definition; partner `RemovePunctuationChars`) |
| Chars.IsAscii | src/dataPreprocessing.py:38 | code points below 128, the ones `encode("ascii", "ignore")` keeps (definition; partner `KeepAsciiChars`) |
| Chars.IsWordChar | src/dataPreprocessing.py:59 | the vectorizer's `\w`, over ASCII: letters, digits and '_' (definition; partners `WordRun`, `WordStartsExact`) |
| Chars.LowerChar | src/dataPreprocessing.py:29 | lower-casing maps 'A'..'Z' to 'a'..'z' and leaves every other character alone; the result is never an upper-case ASCII letter |
| Chars.ToLower | src/dataPreprocessing.py:29 | ASCII lower-casing (the model's `str.lower`) keeps the length, lowers each character in place, and leaves no upper-case ASCII letter |
| Chars.ToLowerAppend | src/dataPreprocessing.py:29 | lower-casing distributes over concatenation |
| TextCleaning.NonSpaceRun | src/dataPreprocessing.py:32 | `\S+` takes the longest run of non-whitespace: every character in it is non-space and the next one is a space or the end |
| TextCleaning.TagEnd | src/dataPreprocessing.py:32 | the lazy `.*?>` stops at the first '>' not preceded by a newline; no match when a newline comes first |
| TextCleaning.TagMatch | src/dataPreprocessing.py:32 | a tag match starts with '<', ends at the first following '>', and has no '>' or newline inside; there is no match exactly when the text does not start with '<' or a newline comes before every '>' |
| TextCleaning.PrefixedRunMatch | src/dataPreprocessing.py:32 | `http\S+` and `www\.\S+` match the prefix plus at least one non-space, greedily; otherwise no match |
| TextCleaning.EmailMatch | src/dataPreprocessing.py:32 | `\S+@\S+` at a position matches the whole non-space run exactly when that run has an inner '@' |
| TextCleaning.MatchLength | src/dataPreprocessing.py:32 | there is no match exactly when none of the four alternatives matches; otherwise the match is one alternative's match, a tag taking precedence, and it never overruns the text |
| TextCleaning.RemovePunctuation | src/dataPreprocessing.py:35 | `translate` with the punctuation table: each of the 32 characters is deleted, every other kept in order (definition; its partner is `RemovePunctuationChars`) |
| TextCleaning.KeepAscii | src/dataPreprocessing.py:38 | the ASCII round trip: characters below 128 are kept in order, others deleted (definition; partner `KeepAsciiChars`) |
| TextCleaning.RemoveStopwords | src/dataPreprocessing.py:42 | the list comprehension: tokens not in the stopword set, in order (definition; partner `RemoveStopwordsMembers`) |
| TextCleaning.Join | src/dataPreprocessing.py:45 | `" ".join`: the tokens with one space between consecutive ones (definition; partners `SplitJoin`, `JoinSingleSpaced`) |
| TextCleaning.CleanedText | src/dataPreprocessing.py:29-38 | steps 1 to 4 composed in the source's order: lower-case, regex deletion, punctuation, ASCII (definition; partner `CleanedTextChars`) |
| TextCleaning.Preprocess | src/dataPreprocessing.py:20-45 | `preprocess_text`: split the cleaned text, drop stopwords, join (definition; partners the `Preprocess*` lemmas) |
| TextCleaning.StripMarkup | src/dataPreprocessing.py:32 | `re.sub(..., "")` only deletes characters: the result is a sub-multiset of the input |
| TextCleaning.StripMarkupPlain | src/dataPreprocessing.py:32 | a text with no '<', no '@', and no "http" or "www." is left unchanged |
| TextCleaning.RemovePunctuationChars | src/dataPreprocessing.py:35 | a character survives `translate` exactly when it was present and is not one of the 32 punctuation characters |
| TextCleaning.RemovePunctuationAppend | src/dataPreprocessing.py:35 | punctuation removal distributes over concatenation |
| TextCleaning.RemovePunctuationNone | src/dataPreprocessing.py:35 | a text without punctuation is unchanged |
| TextCleaning.KeepAsciiChars | src/dataPreprocessing.py:38 | a character survives the ASCII round trip exactly when it was present and is below 128 |
| TextCleaning.KeepAsciiAll | src/dataPreprocessing.py:38 | an all-ASCII text is unchanged |
| TextCleaning.Split | src/dataPreprocessing.py:41 | `str.split()` yields non-empty whitespace-free tokens; every maximal run of non-whitespace is one of them, and together they hold exactly the text's non-whitespace characters, in order (one token per run, in order: `SplitAtStarts`) |
| TextCleaning.ShiftRuns | src/dataPreprocessing.py:41 | after whitespace or after the first run, the runs of a text are the runs of its remainder |
| TextCleaning.RunStarts | src/dataPreprocessing.py:41 | the positions where the tokens of `str.split()` start, left to right (definition; partners `RunStartsExact`, `SplitAtStarts`) |
| TextCleaning.RunStartsExact | src/dataPreprocessing.py:41 | `RunStarts` is strictly increasing, and a position is in it exactly when a run of non-whitespace starts there |
| TextCleaning.SplitAtStarts | src/dataPreprocessing.py:41 | `str.split()` gives one token per run start, in order: the k-th token is the maximal run of non-whitespace at the k-th start, so no run is repeated, cut short or out of place |
| TextCleaning.NonSpaceOfRun | src/dataPreprocessing.py:41 | the non-whitespace characters of a text are its first run followed by those of the rest |
| TextCleaning.RemoveStopwordsMembers | src/dataPreprocessing.py:42 | a word is kept exactly when it was a token and is not a stopword |
| TextCleaning.SplitToken | src/dataPreprocessing.py:41 | a single token splits to itself |
| TextCleaning.SplitTokenThenRest | src/dataPreprocessing.py:41-45 | splitting "w rest" gives w followed by the tokens of rest |
| TextCleaning.SplitJoin | src/dataPreprocessing.py:41-45 | splitting the space-joined tokens gives back exactly those tokens (join and split are inverse) |
| TextCleaning.JoinSingleSpaced | src/dataPreprocessing.py:45 | `" ".join` of tokens is single-spaced, with no leading or trailing space, and empty exactly when there are no tokens |
| TextCleaning.JoinChars | src/dataPreprocessing.py:45 | the joined text holds only spaces and characters of the tokens |
| TextCleaning.CleanedTextChars | src/dataPreprocessing.py:29-38 | after steps 1 to 4, no character is upper-case ASCII, punctuation or non-ASCII |
| TextCleaning.PreprocessCharsFromCleaned | src/dataPreprocessing.py:41-45 | every character of the output is a space or a character of the cleaned text |
| TextCleaning.PreprocessLowerCase | src/dataPreprocessing.py:29 | the output of `preprocess_text` contains no upper-case ASCII letter |
| TextCleaning.PreprocessNoPunctuation | src/dataPreprocessing.py:35 | the output contains none of the 32 punctuation characters |
| TextCleaning.PreprocessAscii | src/dataPreprocessing.py:38 | every output character has a code point below 128 |
| TextCleaning.PreprocessTokens | src/dataPreprocessing.py:41-45 | the output's tokens are exactly the non-stopword tokens of the cleaned text, in their original order, so no output token is a stopword |
| TextCleaning.PreprocessSingleSpaced | src/dataPreprocessing.py:41-45 | the output has no leading or trailing whitespace, no empty token, and exactly one space between tokens |
| TextCleaning.PreprocessEmpty | src/dataPreprocessing.py:41-45 | the output is "" exactly when every token of the cleaned text is a stopword |
| TextCleaning.StripMarkupFirstPass | src/dataPreprocessing.py:32 | "ht!tp" followed by letters without 'h' passes the regex step untouched |
| TextCleaning.RemovePunctuationFirstPass | src/dataPreprocessing.py:35 | removing punctuation turns "ht!tp"+rest into "http"+rest |
| TextCleaning.LowerCaseFirstPass | src/dataPreprocessing.py:29 | lower-casing leaves "ht!tp"+rest unchanged |
| TextCleaning.KeepAsciiFirstPass | src/dataPreprocessing.py:38 | the ASCII step leaves "http"+rest unchanged |
| TextCleaning.CleanedFirstPass | src/dataPreprocessing.py:29-38 | the first pass over "ht!tp"+rest produces "http"+rest |
| TextCleaning.StripMarkupSecondPass | src/dataPreprocessing.py:32 | the regex step deletes all of "http"+rest |
| TextCleaning.CleanedSecondPass | src/dataPreprocessing.py:29-38 | the second pass over "http"+rest produces "" |
| TextCleaning.PreprocessNotIdempotent | src/dataPreprocessing.py:20-45 | `preprocess_text` is not idempotent: for every such rest, one pass gives "http"+rest and a second pass gives "" |
| TextCleaning.PreprocessNotIdempotentExample | src/dataPreprocessing.py:20-45 | concretely, "ht!tpfoo" cleans to "httpfoo", which cleans to "" |
| Vectorizer.WordRun | src/dataPreprocessing.py:59 | the longest leading run of word characters, ended by a non-word character or the end |
| Vectorizer.Tokenize | src/dataPreprocessing.py:59 | the default token pattern yields only runs of two or more word characters, and every maximal run of two or more word characters is a token (one token per such run, in order: `TokenizeAtStarts`) |
| Vectorizer.WordStarts | src/dataPreprocessing.py:59 | the positions where the tokens of the default pattern start, left to right (definition; partners `WordStartsExact`, `TokenizeAtStarts`) |
| Vectorizer.WordStartsExact | src/dataPreprocessing.py:59 | `WordStarts` is strictly increasing, and a position is in it exactly when a run of two or more word characters starts there (the `\b` before `\w\w+`) |
| Vectorizer.TokenizeAtStarts | src/dataPreprocessing.py:59 | `re.findall` gives one token per start, in order: the k-th token is the maximal run of word characters at the k-th start, so no run is repeated, cut short or out of place |
| Vectorizer.ShiftWords | src/dataPreprocessing.py:59 | after a non-word character or after the first run, the word runs of a text are those of its remainder |
| Vectorizer.TokenizeChars | src/dataPreprocessing.py:59 | every character of a token comes from the document |
| Vectorizer.WordRunSeparated | src/dataPreprocessing.py:54-59 | a space ends a word run |
| Vectorizer.TokenizeSeparated | src/dataPreprocessing.py:54-59 | tokenizing "x y" gives the tokens of x followed by those of y |
| Vectorizer.Analyze | src/dataPreprocessing.py:59 | the default analyzer: lower-case, then the token pattern (definition; partners `Tokenize`, `CombinedTokens`) |
| Vectorizer.TermCount | src/dataPreprocessing.py:63-66 | occurrences of a term among a document's tokens (definition; partner `CountTerms`) |
| Vectorizer.TermFreq | src/dataPreprocessing.py:59-63 | total occurrences of a term over the training documents, the ranking key of max_features (definition; partner `DocFreqAtMostTermFreq`) |
| Vectorizer.DocFreq | src/dataPreprocessing.py:59-63 | number of training documents containing a term, the quantity min_df bounds (definition; partner `DocFreqPositive`) |
| Vectorizer.Eligible | src/dataPreprocessing.py:59-63 | the corpus terms with document frequency at least min_df (definition; partners `VocabularyBounds`, `AllEligibleKept`) |
| Vectorizer.IsFittedVocabulary | src/dataPreprocessing.py:59-63 | sorted, eligible terms only, min(max_features, #eligible) of them, no left-out eligible term more frequent than a kept one (specification; `FitTransform` is proved against it) |
| Vectorizer.FitFailure | src/dataPreprocessing.py:63 | the ValueError `fit_transform` raises first: no token at all, fewer documents than min_df, no term reaching min_df (specification; `FitTransform` is proved against it) |
| Vectorizer.CountRow | src/dataPreprocessing.py:63-66 | a document's counts, one per vocabulary column (specification; `CountTerms` is proved against it) |
| Vectorizer.CountMatrix | src/dataPreprocessing.py:63-66 | one count row per document, in order (specification; `CountDocuments`, `FitTransform`, `Transform` are proved against it) |
| Vectorizer.Terms | src/dataPreprocessing.py:63 | the terms of a corpus are all well-formed tokens |
| Vectorizer.Less | src/dataPreprocessing.py:63 | the order of the vocabulary's columns: Python's `str <`, lexicographic by code point, a proper prefix first (definition; partners `LessIrreflexive`, `LessTransitive`, `LessTotal`, `SortTerms`) |
| Vectorizer.LessIrreflexive | src/dataPreprocessing.py:63 | the column order (code-point lexicographic) is irreflexive |
| Vectorizer.LessTransitive | src/dataPreprocessing.py:63 | the column order is transitive |
| Vectorizer.LessTotal | src/dataPreprocessing.py:63 | any two distinct terms are ordered |
| Vectorizer.SortedDistinct | src/dataPreprocessing.py:63 | sorted columns are distinct |
| Vectorizer.DistinctCardinality | src/dataPreprocessing.py:63 | distinct columns number as many as the terms they hold |
| Vectorizer.MostFrequent | src/dataPreprocessing.py:59-63 | returns a candidate whose total frequency is at least that of every other candidate |
| Vectorizer.SelectMostFrequent | src/dataPreprocessing.py:59-63 | keeps min(k, #candidates) candidates, and no left-out candidate is more frequent than a kept one |
| Vectorizer.LeastTerm | src/dataPreprocessing.py:63 | returns the term that precedes all others in column order |
| Vectorizer.SortTerms | src/dataPreprocessing.py:63 | returns exactly the given terms, strictly sorted |
| Vectorizer.ColumnOf | src/dataPreprocessing.py:66 | finds a term's column, or reports that the term is not in the vocabulary |
| Vectorizer.CountTerms | src/dataPreprocessing.py:63-66 | the counting loop yields, for each column, the number of occurrences of that term in the document |
| Vectorizer.CountDocuments | src/dataPreprocessing.py:63-66 | the matrix has one row per document, in order, each the document's count row |
| Vectorizer.CountVectorizer.constructor | src/dataPreprocessing.py:59 | a new vectorizer has the given max_features and min_df and no vocabulary |
| Vectorizer.CountVectorizer.FitTransform | src/dataPreprocessing.py:63 | raises the ValueErrors in scikit-learn's order, leaving the stored vocabulary as it was; otherwise stores a fitted vocabulary and returns the training count matrix over it |
| Vectorizer.CountVectorizer.Transform | src/dataPreprocessing.py:66 | before fitting it fails with NotFitted; after fitting it returns the count matrix over the stored vocabulary and changes nothing |
| Vectorizer.DocFreqPositive | src/dataPreprocessing.py:59 | a term's document frequency is positive exactly when it occurs in the corpus, and it is at most the number of documents |
| Vectorizer.DocFreqAtMostTermFreq | src/dataPreprocessing.py:59 | document frequency never exceeds total term frequency |
| Vectorizer.VocabularyBounds | src/dataPreprocessing.py:59-63 | a fitted vocabulary has at most max_features terms, each a well-formed token in at least min_df training documents |
| Vectorizer.AllEligibleKept | src/dataPreprocessing.py:59-63 | when no more than max_features terms reach min_df, the vocabulary is exactly those terms |
| Vectorizer.NoLeakage | src/dataPreprocessing.py:63-66 | a term absent from the training documents is never a column, and the test matrix has one row per test document with the training columns |
| Vectorizer.KnownCountAdd | src/dataPreprocessing.py:66 | adding a term to a set of terms adds its number of occurrences to the count of known tokens |
| Vectorizer.KnownCountNone | src/dataPreprocessing.py:66 | no tokens are counted for an empty vocabulary |
| Vectorizer.RowSumCountsKnownTokens | src/dataPreprocessing.py:66 | a row's sum is the number of the document's tokens that are vocabulary terms |
| Vectorizer.CombinedTokens | src/dataPreprocessing.py:54-66 | the tokens of title + " " + text are those of the title followed by those of the text, so its count row is the sum of the two rows |
| FeaturePreparation.CleanColumn | src/dataPreprocessing.py:50-51 | a column after `.apply(preprocess_text)`: same length, each cell cleaned (definition; `CleanTextColumns` is proved against it) |
| FeaturePreparation.Combine | src/dataPreprocessing.py:54-55 | row by row, title + " " + text (definition; `AddCombinedText` is proved against it, partner `CombinedColumnTokens`) |
| FeaturePreparation.TextFrame.constructor | src/dataPreprocessing.py:11-12 | a table read from disk has equally long title and text columns and no combined_text |
| FeaturePreparation.TextFrame.CleanTextColumns | src/dataPreprocessing.py:50-51 | both columns are overwritten with `preprocess_text` of each cell, keeping row count and order |
| FeaturePreparation.TextFrame.AddCombinedText | src/dataPreprocessing.py:54 | combined_text of each row is its title, a space, then its text, and the columns are untouched |
| FeaturePreparation.PrepareFeatures | src/dataPreprocessing.py:49-66 | both tables are cleaned and combined, the vectorizer (500, 2) is fitted on train only, it fails exactly when the fit raises, and otherwise the train and test matrices are the count matrices of the two combined columns over the one fitted vocabulary |
| FeaturePreparation.CombinedColumnTokens | src/dataPreprocessing.py:54-55 | each combined row's terms are the title's terms followed by the text's terms |
| FeaturePreparation.PlainTextTerms | src/dataPreprocessing.py:63 | on text without capitals or punctuation, every term, under the model's ASCII `\w`, is made of 'a'..'z' and '0'..'9' |
| FeaturePreparation.CleanedTermsAlphanumeric | src/dataPreprocessing.py:20-63 | every vocabulary term drawn from a cleaned combined_text consists of lower-case ASCII letters and digits |
| Ingestion.Table.constructor | src/dataIngestion.py:7 | a table holds the rows it was built from |
| Ingestion.Table.SetLabel | src/dataIngestion.py:8-12 | the table becomes `Tagged` of its old rows: every row gets the tag in its label column, and nothing else changes |
| Ingestion.Table.ParseDates | src/dataIngestion.py:18 | the table becomes `ParseAll` of its old rows: every date cell is replaced by its parse, or by NaT when the parser rejects it, and nothing else changes |
| Ingestion.Table.EncodeLabels | src/dataIngestion.py:24 | the table becomes `EncodeAll` of its old rows: every label is replaced by its code, "fake" by 0 and "true" by 1, and nothing else changes |
| Ingestion.ParseDate | src/dataIngestion.py:18 | `to_datetime(errors='coerce')` on one cell: parsed text becomes a timestamp, unparseable text NaT (definition; partner `SourceSurvivors`) |
| Ingestion.EncodeLabel | src/dataIngestion.py:24 | `replace({"fake": 0, "true": 1})` on one cell, other values left alone (definition; partners `EncodingCounts`, `EncodingBinary`) |
| Ingestion.Tagged | src/dataIngestion.py:8-12 | the label column set to a tag, other columns as they were (definition; `SetLabel` is proved against it) |
| Ingestion.ParseAll | src/dataIngestion.py:18 | the date column parsed, other columns as they were (definition; `ParseDates` is proved against it) |
| Ingestion.EncodeAll | src/dataIngestion.py:24 | the label column encoded, other columns as they were (definition; `EncodeLabels` is proved against it) |
| Ingestion.DropNaT | src/dataIngestion.py:21 | `dropna(subset=['date'])`: the rows without NaT, in order (definition; partners `DropNaTKeeps`, `DropNaTAppend`) |
| Ingestion.DropNaTAppend | src/dataIngestion.py:15-21 | filtering the concatenation is concatenating the filtered parts, so true survivors stay before fake survivors |
| Ingestion.DropNaTKeeps | src/dataIngestion.py:21 | after `dropna`, no row has NaT, and every row with a parsed date is kept with its multiplicity |
| Ingestion.LabelCountAppend | src/dataIngestion.py:15 | label counts add up over concatenation |
| Ingestion.LabelCountMultiset | src/dataIngestion.py:27 | reordering rows does not change label counts |
| Ingestion.EncodingCounts | src/dataIngestion.py:24 | after encoding, the code 0 count is the "fake" count plus the old 0 count, likewise for 1 and "true", and other labels are unchanged |
| Ingestion.SourceSurvivors | src/dataIngestion.py:8-21 | the rows of one source that survive the filter are exactly as many as those with a parseable date, and each has a parsed date and the source's tag |
| Ingestion.CombinedSurvivors | src/dataIngestion.py:8-21 | the filtered table has one row per parseable true or fake row, with counts of "true" and "fake" matching the sources and no other label |
| Ingestion.EncodingBinary | src/dataIngestion.py:24 | encoding a table tagged only "fake"/"true" leaves only codes 0 and 1 and keeps the dates |
| Ingestion.ParsedSources | src/dataIngestion.py:8-18 | after tagging, concatenating and parsing dates, row i is the i-th true row tagged "true" and row |true|+i the i-th fake row tagged "fake", each with its date parsed and its other columns as read |
| Ingestion.IngestedRows | src/dataIngestion.py:8-24 | the encoded table has as many code 1 rows as parseable true rows and as many code 0 rows as parseable fake rows, all with parsed dates |
| Ingestion.IngestedTable | src/dataIngestion.py:8-24 | the table before the split, built from the tagged, concatenated, parsed, filtered and encoded sources, is the true source's result followed by the fake source's, with the per-source counts and the 1-then-0 label order |
| Ingestion.SourceOrder | src/dataIngestion.py:15-24 | parsing, filtering and encoding a concatenation gives the first part's result followed by the second's |
| Ingestion.IngestedOrder | src/dataIngestion.py:15-24 | all surviving true rows (code 1) come first, then all surviving fake rows (code 0) |
| Ingestion.TestCount | src/dataIngestion.py:27 | test_size=0.2 gives ceil(0.2·n) test rows |
| Ingestion.Indices | src/dataIngestion.py:27 | the row positions 0..n-1 (definition; partner `IndicesCount`) |
| Ingestion.IndicesCount | src/dataIngestion.py:27 | each row position 0..n-1 occurs once among the positions, and nothing else occurs |
| Ingestion.PermutationBounds | src/dataIngestion.py:27 | a shuffle of n rows has n entries, each a row position |
| Ingestion.PickAppend | src/dataIngestion.py:27 | selecting rows by concatenated positions concatenates the selections |
| Ingestion.PickMultiset | src/dataIngestion.py:27 | selecting by a reordering of positions selects the same rows |
| Ingestion.TwoClassSplit | src/dataIngestion.py:27 | a table labelled only 0 and 1 with at least two rows of each splits exactly when it has at least 6 rows, and otherwise fails because the test set is smaller than the number of classes |
| Ingestion.TwoClasses | src/dataIngestion.py:27 | a table labelled only 0 and 1, with rows of both, has exactly the two classes 0 and 1 |
| Ingestion.LabelCountPositive | src/dataIngestion.py:27 | a label with a positive count is carried by some row |
| Ingestion.LabelCountPair | src/dataIngestion.py:27 | two different labels together count at most every row |
| Ingestion.Classes | src/dataIngestion.py:27 | the classes `stratify=df['label']` stratifies on: the labels that occur (definition; partner `TwoClasses`) |
| Ingestion.SplitFailure | src/dataIngestion.py:27 | the ValueError `train_test_split` raises first: empty train set, a class with one row, fewer train or test rows than classes (specification; partner `TwoClassSplit`) |
| Ingestion.Pick | src/dataIngestion.py:27 | the rows at the given positions, in that order (`iloc`) (definition; partners `PickAppend`, `PickMultiset`) |
| Ingestion.Split | src/dataIngestion.py:27 | the split under a shuffle: fails with `SplitFailure`, otherwise the first n − ceil(0.2·n) shuffled positions are train and the rest test (definition; partners `SplitSizes`, `SplitConserves`, `SplitIndicesPartition`, `SplitLabelCounts`, `TwoClassSplit`) |
| Ingestion.SplitSizes | src/dataIngestion.py:27 | test has ceil(0.2·n) rows and train the other n − ceil(0.2·n), each the rows at its recorded positions |
| Ingestion.SplitIndicesPartition | src/dataIngestion.py:26-27 | every row position is in exactly one of train and test (disjoint and covering) |
| Ingestion.SplitConserves | src/dataIngestion.py:27 | train and test together hold every filtered row exactly once, as multisets |
| Ingestion.SplitLabelCounts | src/dataIngestion.py:27 | for each label, its train count plus its test count is its count in the filtered table |
| Ingestion.Ingest | src/dataIngestion.py:7-27 | the table is the true rows tagged "true", then the fake rows tagged "fake", with dates parsed, unparseable rows dropped and labels encoded (all other columns as read, each group in its original order); it has one code 1 row per parseable true row, then one code 0 row per parseable fake row, and the split is that of this table under the given shuffle |

## Left out

- File and network I/O is not modelled: `read_csv`, `to_csv`, `save_npz`, `os.makedirs`, `nltk.download`. The missing `exist_ok` at src/dataIngestion.py:33, which makes a rerun fail, belongs to this I/O.
- The NLTK English stopword list is a parameter `stop`. Every property holds for any set.
- Lower-casing covers ASCII letters only. Python's `str.lower` also maps some non-ASCII characters, some of them to ASCII (U+212A to "k"), and some to two code points (U+0130 to "i" and a combining dot), so the length-keeping `ToLower` holds for ASCII lower-casing only.
- The vectorizer's `\w` is ASCII here, while scikit-learn's is Unicode. The two agree on characters below 128, and `PreprocessAscii` proves that every character of the cleaned text the script vectorizes is below 128.
- `str(text)` coercion is not modelled: cells are strings, so a missing cell becoming "nan" is not covered.
- pandas' mixed-format, day-first date parsing is a parameter `parse` that yields a timestamp or nothing.
- The random generator of `train_test_split(random_state=33)` and its per-class allocation are not modelled. The shuffle is an input, and the split is proved for every permutation. The checks that stratification causes (a singleton class, fewer train or test rows than classes) are modelled as errors. How close each class's share of test is to its share of the table is not proved.
- Ingestion.TestCount: the float product 0.2·n is taken as the exact ceiling. This agrees with IEEE doubles for every n below 2^53.
- Vectorizer.IsFittedVocabulary leaves open how scikit-learn orders terms of equal total frequency when it caps the vocabulary at 500. Any such choice satisfies it. A lexicographic tie-break would be one particular choice, and the script does not fix one.
- The vectorizer's sparse matrix format is not modelled: matrices are dense sequences of count rows.
- Whether the chained `df["label"].replace(..., inplace=True)` writes back into `df` depends on the pandas version. The model performs the intended mapping.
- Label encoding raises no error on a label other than "fake" or "true", because `replace` leaves such a label as it is (`EncodeLabel`). The script has no missing-source or empty-corpus errors either: reading a missing file fails inside `read_csv`, which is I/O. An empty corpus reaches the split, which raises `EmptyTrainSet`.
- `preprocess_text` is not idempotent. `PreprocessNotIdempotent` proves it on "ht!tpfoo".
- The pandas column `label` is the field `verdict` of `Row`, because `label` is a reserved word in Dafny.
- The columns that the scripts only carry along (`subject`, and the rest of the CSV) are represented by `subject` alone.
- src/modelbuilding.py and src/modelevaluation.py are not part of this model: they are floating-point model fitting and metrics in library code.
