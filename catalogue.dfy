/** The `FEATURES` catalogue of aes/features/__init__.py: for each feature
    category, the canonical names of its features. */
module Catalogue {
  import opened Wrappers
  import opened Text
  import Length

  /** The keys of `FEATURES`, in their written order. */
  const Categories: seq<string> := ["length", "syntactic", "word", "readability", "semantic"]

  const LengthFeatures: seq<string> := [
    "alphabetic_character_count",
    "number_character_count",
    "special_character_count",
    "word_count",
    "word_count_gt_5",
    "word_count_gt_6",
    "word_count_gt_7",
    "word_count_gt_8",
    "vocabulary_size",
    "sentence_count",
    "lemmas_count",
    "punctuation_count",
    "commas_count",
    "exclamation_mark_count",
    "question_mark_count",
    "avg_word_length",
    "std_word_length",
    "avg_sentence_length",
    "std_sentence_length"
  ]

  const SyntacticFeatures: seq<string> := [
    "noun_count",
    "verb_count",
    "adjective_count",
    "adverb_count",
    "conjunction_count",
    "type_token_ratio",
    "existential_there_count",
    "superlative_count",
    "verb_compliment_counts",
    "noun_complement_counts",
    "adjective_complement_counts",
    "that_relative_clause_count",
    "wh_relative_clause_count",
    "pre_quallifier_count",
    "pre_quantifier_count",
    "post_determiner_count",
    "demonstrative_determiner_count",
    "singular_article_count",
    "definite_article_count",
    "indefinite_article_count",
    "singular_determiner_count",
    "plural_determiner_count",
    "double_conjunction_count",
    "attributive_adjective_count",
    "post_noun_modifying_prepositional_phrase"
  ]

  const WordFeatures: seq<string> := [
    "spelling_error_count",
    "spelling_error_ratio",
    "stop_word_count",
    "stop_word_ratio",
    "bigram_count",
    "trigram_count",
    "stemmed_bigram_count",
    "stemmed_trigram_count",
    "modal_count"
  ]

  const ReadabilityFeatures: seq<string> := [
    "automated_readibility_index",
    "Coleman-Liau index",
    "Dale-Chall readability score",
    "Difficult word count",
    "Flesch reading ease",
    "Flesch-Kincaid grade",
    "Gunning fog",
    "Linsear write formula",
    "Smog index",
    "Syllables count"
  ]

  const SemanticFeatures: seq<string> := ["similarity", "histogram_based"]

  /** `FEATURES.get(category)`: the names listed under a category, or
      nothing for a string that is not one of the five keys. */
  function FeaturesOf(category: string): (names: Option<seq<string>>)
  {
    if category == "length" then Some(LengthFeatures)
    else if category == "syntactic" then Some(SyntacticFeatures)
    else if category == "word" then Some(WordFeatures)
    else if category == "readability" then Some(ReadabilityFeatures)
    else if category == "semantic" then Some(SemanticFeatures)
    else None
  }

  /** Exactly five categories, each listed once, and a lookup succeeds for
      exactly those. */
  lemma FiveCategories()
    ensures |Categories| == 5 && Distinct(Categories)
    ensures forall c :: FeaturesOf(c).Some? <==> c in Categories
  {
  }

  lemma LengthDistinct()
    ensures Distinct(LengthFeatures)
  {
    LengthDistinctLow();
    LengthDistinctMiddle();
    LengthDistinctHigh();
  }

  /** No name at positions `lo` to `hi` repeats an earlier one. */
  predicate DistinctRange(xs: seq<string>, lo: nat, hi: nat)
  {
    forall i, j :: 0 <= i < j && lo <= j < hi && j < |xs| ==> xs[i] != xs[j]
  }

  lemma LengthDistinctLow()
    ensures DistinctRange(LengthFeatures, 0, 7)
  {
  }

  lemma LengthDistinctMiddle()
    ensures DistinctRange(LengthFeatures, 7, 13)
  {
  }

  lemma LengthDistinctHigh()
    ensures DistinctRange(LengthFeatures, 13, 19)
  {
  }

  lemma SyntacticDistinct()
    ensures Distinct(SyntacticFeatures)
  {
    SyntacticDistinctFrom0();
    SyntacticDistinctFrom5();
    SyntacticDistinctFrom9();
    SyntacticDistinctFrom11();
    SyntacticDistinctFrom13();
    SyntacticDistinctFrom15();
    SyntacticDistinctFrom18();
    SyntacticDistinctFrom20();
  }

  lemma SyntacticDistinctFrom0()
    ensures DistinctRange(SyntacticFeatures, 0, 5)
  {
  }

  lemma SyntacticDistinctFrom5()
    ensures DistinctRange(SyntacticFeatures, 5, 9)
  {
  }

  lemma SyntacticDistinctFrom9()
    ensures DistinctRange(SyntacticFeatures, 9, 11)
  {
  }

  lemma SyntacticDistinctFrom11()
    ensures DistinctRange(SyntacticFeatures, 11, 13)
  {
  }

  lemma SyntacticDistinctFrom13()
    ensures DistinctRange(SyntacticFeatures, 13, 15)
  {
  }

  lemma SyntacticDistinctFrom15()
    ensures DistinctRange(SyntacticFeatures, 15, 18)
  {
  }

  lemma SyntacticDistinctFrom18()
    ensures DistinctRange(SyntacticFeatures, 18, 20)
  {
  }

  lemma SyntacticDistinctFrom20()
    ensures DistinctRange(SyntacticFeatures, 20, 25)
  {
  }

  lemma OtherListsDistinct()
    ensures Distinct(WordFeatures) && Distinct(ReadabilityFeatures) && Distinct(SemanticFeatures)
  {
  }

  /** Within each category, every name is listed once. */
  lemma NamesUniqueWithinCategories(c: string)
    requires c in Categories
    ensures Distinct(FeaturesOf(c).value)
  {
    LengthDistinct();
    SyntacticDistinct();
    OtherListsDistinct();
  }

  predicate Disjoint(a: seq<string>, b: seq<string>)
  {
    forall i, j :: 0 <= i < |a| && 0 <= j < |b| ==> a[i] != b[j]
  }

  lemma DisjointSymmetric(a: seq<string>, b: seq<string>)
    requires Disjoint(a, b)
    ensures Disjoint(b, a)
  {
  }

  lemma DisjointNotBoth(a: seq<string>, b: seq<string>, name: string)
    requires Disjoint(a, b)
    ensures !(name in a && name in b)
  {
  }

  /** No name of `a` is among the names of `b` at positions `lo` to `hi`. */
  predicate DisjointRange(a: seq<string>, b: seq<string>, lo: nat, hi: nat)
  {
    forall i, j :: 0 <= i < |a| && lo <= j < hi && j < |b| ==> a[i] != b[j]
  }

  lemma LengthSyntacticDisjoint()
    ensures Disjoint(LengthFeatures, SyntacticFeatures)
  {
    LengthSyntacticLow();
    LengthSyntacticMiddle();
    LengthSyntacticHigh();
    LengthSyntacticTop();
  }

  lemma LengthSyntacticLow()
    ensures DisjointRange(LengthFeatures, SyntacticFeatures, 0, 7)
  {
  }

  lemma LengthSyntacticMiddle()
    ensures DisjointRange(LengthFeatures, SyntacticFeatures, 7, 13)
  {
  }

  lemma LengthSyntacticHigh()
    ensures DisjointRange(LengthFeatures, SyntacticFeatures, 13, 19)
  {
  }

  lemma LengthSyntacticTop()
    ensures DisjointRange(LengthFeatures, SyntacticFeatures, 19, 25)
  {
  }

  lemma LengthOthersDisjoint()
    ensures Disjoint(LengthFeatures, WordFeatures)
    ensures Disjoint(LengthFeatures, ReadabilityFeatures) && Disjoint(LengthFeatures, SemanticFeatures)
  {
    LengthWordDisjoint();
    LengthReadabilityDisjoint();
  }

  lemma LengthWordDisjoint()
    ensures Disjoint(LengthFeatures, WordFeatures)
  {
  }

  lemma LengthReadabilityDisjoint()
    ensures Disjoint(LengthFeatures, ReadabilityFeatures)
  {
  }

  lemma SyntacticWordDisjoint()
    ensures Disjoint(SyntacticFeatures, WordFeatures)
  {
  }

  lemma SyntacticOthersDisjoint()
    ensures Disjoint(SyntacticFeatures, ReadabilityFeatures) && Disjoint(SyntacticFeatures, SemanticFeatures)
  {
    SyntacticReadabilityDisjoint();
  }

  lemma SyntacticReadabilityDisjoint()
    ensures Disjoint(SyntacticFeatures, ReadabilityFeatures)
  {
  }

  lemma RestDisjoint()
    ensures Disjoint(WordFeatures, ReadabilityFeatures) && Disjoint(WordFeatures, SemanticFeatures)
    ensures Disjoint(ReadabilityFeatures, SemanticFeatures)
  {
  }

  /** No name appears under two categories. */
  lemma NoNameInTwoCategories(c1: string, c2: string, name: string)
    requires c1 in Categories && c2 in Categories && c1 != c2
    ensures !(name in FeaturesOf(c1).value && name in FeaturesOf(c2).value)
  {
    CategoriesDisjoint(c1, c2);
    DisjointNotBoth(FeaturesOf(c1).value, FeaturesOf(c2).value, name);
  }

  lemma CategoriesDisjoint(c1: string, c2: string)
    requires c1 in Categories && c2 in Categories && c1 != c2
    ensures Disjoint(FeaturesOf(c1).value, FeaturesOf(c2).value)
  {
    LengthSyntacticDisjoint();
    LengthOthersDisjoint();
    SyntacticWordDisjoint();
    SyntacticOthersDisjoint();
    RestDisjoint();
    var a, b := FeaturesOf(c1).value, FeaturesOf(c2).value;
    if !Disjoint(a, b) {
      DisjointSymmetric(b, a);
    }
  }

  /** The "length" list names every extractor of length.py. */
  lemma LengthListCoversExtractors(kind: Length.Kind)
    ensures Length.CanonicalName(kind) in LengthFeatures
  {
  }

  /** The "length" list also names six features that no class of length.py
      extracts. */
  lemma LengthListExtras()
    ensures forall name :: name in ["word_count_gt_5", "word_count_gt_6", "word_count_gt_7", "word_count_gt_8",
                                    "lemmas_count", "exclamation_mark_count"]
                           ==> name in LengthFeatures && forall kind :: Length.CanonicalName(kind) != name
  {
  }
}
