/**
 * The surah search of the stand-alone Quran sidebar
 * (src/components/quran-sidebar.tsx). It carries its own copy of
 * `normalizeArabic` and of the surah filter. Here the copy has its own
 * character classes and replacement letters, and is written as a table of
 * rewrite rules folded over the text rather than as a chain of steps. Both
 * the normaliser and the filter are proved to agree with the application
 * sidebar's on every input, so every property proved there carries over.
 */
module QuranSidebar {
  import opened JsString
  import opened JsArray
  import opened QuranData
  import AppSidebar

  /** `[\u064B-\u065F\u0670]`. */
  predicate IsMark(c: char) { '\U{064B}' <= c <= '\U{065F}' || c == '\U{0670}' }

  /** `[إأآا]`. */
  predicate IsAlefForm(c: char) { c in {'\U{0625}', '\U{0623}', '\U{0622}', '\U{0627}'} }

  /** `ى`. */
  predicate IsMaqsura(c: char) { c == '\U{0649}' }

  /** `ة`. */
  predicate IsMarbuta(c: char) { c == '\U{0629}' }

  /** `ؤ`. */
  predicate IsHamzaOnWaw(c: char) { c == '\U{0624}' }

  /** `ئ`. */
  predicate IsHamzaOnYa(c: char) { c == '\U{0626}' }

  /** `-`. */
  predicate IsHyphen(c: char) { c == '-' }

  /** One `.replace(/[class]/g, repl)` step. */
  datatype Rewrite = Rewrite(inClass: char -> bool, repl: string)

  /** The eight `.replace` steps of the chain, in source order. */
  const Rewrites: seq<Rewrite> := [
    Rewrite(IsMark, ""),
    Rewrite(IsAlefForm, "\U{0627}"),
    Rewrite(IsMaqsura, "\U{064A}"),
    Rewrite(IsMarbuta, "\U{0647}"),
    Rewrite(IsHamzaOnWaw, "\U{0648}"),
    Rewrite(IsHamzaOnYa, "\U{064A}"),
    Rewrite(IsHyphen, ""),
    Rewrite(IsWhitespace, "")
  ]

  /** Applies the rules one after the other, each to the whole text. */
  function ApplyRewrites(text: string, rules: seq<Rewrite>): string
    decreases |rules|
  {
    if rules == [] then text
    else ApplyRewrites(ReplaceAll(text, rules[0].inClass, rules[0].repl), rules[1..])
  }

  /** This sidebar's `normalizeArabic`: on every input it agrees with the application sidebar's. */
  function NormalizeArabic(text: string): (r: string)
    ensures r == AppSidebar.NormalizeArabic(text)
  {
    RewritesAgreeWithChain(text);
    ToLowerCase(ApplyRewrites(text, Rewrites))
  }

  /**
   * Folding the rule table performs, in the same order, the eight
   * replacements of the application sidebar's chain: each class here holds
   * the same characters as the one there, and each replacement letter is
   * the same.
   */
  lemma RewritesAgreeWithChain(text: string)
    ensures ApplyRewrites(text, Rewrites) ==
      var noMarks := ReplaceAll(text, AppSidebar.IsDiacritic, "");
      var alef := ReplaceAll(noMarks, AppSidebar.IsAlefVariant, [AppSidebar.Alef]);
      var maqsura := ReplaceAll(alef, AppSidebar.IsAlefMaqsura, [AppSidebar.Ya]);
      var marbuta := ReplaceAll(maqsura, AppSidebar.IsTaMarbuta, [AppSidebar.Ha]);
      var waw := ReplaceAll(marbuta, AppSidebar.IsWawHamza, [AppSidebar.Waw]);
      var ya := ReplaceAll(waw, AppSidebar.IsYaHamza, [AppSidebar.Ya]);
      var noDashes := ReplaceAll(ya, AppSidebar.IsDash, "");
      ReplaceAll(noDashes, IsWhitespace, "")
  {
    var t0 := text;
    var t1 := ReplaceAll(t0, IsMark, "");
    ReplaceAllCongruent(t0, IsMark, AppSidebar.IsDiacritic, "");
    var t2 := ReplaceAll(t1, IsAlefForm, "\U{0627}");
    ReplaceAllCongruent(t1, IsAlefForm, AppSidebar.IsAlefVariant, [AppSidebar.Alef]);
    var t3 := ReplaceAll(t2, IsMaqsura, "\U{064A}");
    ReplaceAllCongruent(t2, IsMaqsura, AppSidebar.IsAlefMaqsura, [AppSidebar.Ya]);
    var t4 := ReplaceAll(t3, IsMarbuta, "\U{0647}");
    ReplaceAllCongruent(t3, IsMarbuta, AppSidebar.IsTaMarbuta, [AppSidebar.Ha]);
    var t5 := ReplaceAll(t4, IsHamzaOnWaw, "\U{0648}");
    ReplaceAllCongruent(t4, IsHamzaOnWaw, AppSidebar.IsWawHamza, [AppSidebar.Waw]);
    var t6 := ReplaceAll(t5, IsHamzaOnYa, "\U{064A}");
    ReplaceAllCongruent(t5, IsHamzaOnYa, AppSidebar.IsYaHamza, [AppSidebar.Ya]);
    var t7 := ReplaceAll(t6, IsHyphen, "");
    ReplaceAllCongruent(t6, IsHyphen, AppSidebar.IsDash, "");
    var t8 := ReplaceAll(t7, IsWhitespace, "");
    assert ApplyRewrites(t8, Rewrites[8..]) == t8;
    assert ApplyRewrites(t7, Rewrites[7..]) == ApplyRewrites(t8, Rewrites[8..]);
    assert ApplyRewrites(t6, Rewrites[6..]) == ApplyRewrites(t7, Rewrites[7..]);
    assert ApplyRewrites(t5, Rewrites[5..]) == ApplyRewrites(t6, Rewrites[6..]);
    assert ApplyRewrites(t4, Rewrites[4..]) == ApplyRewrites(t5, Rewrites[5..]);
    assert ApplyRewrites(t3, Rewrites[3..]) == ApplyRewrites(t4, Rewrites[4..]);
    assert ApplyRewrites(t2, Rewrites[2..]) == ApplyRewrites(t3, Rewrites[3..]);
    assert ApplyRewrites(t1, Rewrites[1..]) == ApplyRewrites(t2, Rewrites[2..]);
    assert ApplyRewrites(t0, Rewrites) == ApplyRewrites(t1, Rewrites[1..]);
  }

  /** The three criteria of this sidebar's filter, with its own normaliser. */
  predicate SurahMatches(surah: Surah, query: string) {
    || Includes(ToLowerCase(surah.englishName), ToLowerCase(query))
    || Includes(NormalizeArabic(surah.name), NormalizeArabic(query))
    || Includes(ToLowerCase(surah.englishNameTranslation), ToLowerCase(query))
  }

  /**
   * This sidebar's `filteredSurahs`: an order-preserving subsequence of the
   * surahs, and the same list the application sidebar shows for the same
   * surahs and query.
   */
  function FilteredSurahs(surahs: seq<Surah>, searchQuery: string): (r: seq<Surah>)
    ensures IsSubsequence(r, surahs)
    ensures r == AppSidebar.FilteredSurahs(surahs, searchQuery)
  {
    var p := s => SurahMatches(s, searchQuery);
    var q := s => AppSidebar.SurahMatches(s, searchQuery);
    assert forall i :: 0 <= i < |surahs| ==> p(surahs[i]) == q(surahs[i]);
    FilterCongruent(surahs, p, q);
    Filter(surahs, p)
  }

  /** The empty query keeps every surah. */
  lemma EmptyQueryKeepsAll(surahs: seq<Surah>)
    ensures FilteredSurahs(surahs, "") == surahs
  {
    AppSidebar.RemovableQueryKeepsAll(surahs, "");
  }

  /**
   * With this sidebar's normaliser too, inserting whitespace, dashes or
   * diacritics into the query or into the name leaves the Arabic-name
   * verdict unchanged.
   */
  lemma ArabicVerdictIgnoresRemovable(name: string, query: string, a: string, x: string, b: string)
    requires forall c :: c in x ==> AppSidebar.IsRemovable(c)
    ensures Includes(NormalizeArabic(name), NormalizeArabic(a + x + b)) == Includes(NormalizeArabic(name), NormalizeArabic(a + b))
    ensures Includes(NormalizeArabic(a + x + b), NormalizeArabic(query)) == Includes(NormalizeArabic(a + b), NormalizeArabic(query))
  {
    AppSidebar.NormalizeIgnoresInsertedRemovable(a, x, b);
  }
}
