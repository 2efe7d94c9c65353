/**
 * The surah search of the application sidebar (src/components/app-sidebar.tsx):
 * `normalizeArabic`, a chain of eight global single-character replacements
 * followed by `toLowerCase`, and the filter that keeps the surahs matching a
 * query on their English name, their normalised Arabic name or the
 * translation of their name.
 */
module AppSidebar {
  import opened JsString
  import opened JsArray
  import opened QuranData

  const Alef: char := '\U{0627}'         // ا
  const Ya: char := '\U{064A}'           // ي
  const Ha: char := '\U{0647}'           // ه
  const Waw: char := '\U{0648}'          // و

  /** The class U+064B..U+065F and U+0670: tanween, harakat, shadda, sukun, hamza marks, superscript alef. */
  predicate IsDiacritic(c: char) { '\U{064B}' <= c <= '\U{065F}' || c == '\U{0670}' }

  /** `[إأآا]`: alef with hamza below, alef with hamza above, alef with madda, bare alef. */
  predicate IsAlefVariant(c: char) {
    c == '\U{0625}' || c == '\U{0623}' || c == '\U{0622}' || c == '\U{0627}'
  }

  /** ى, alef maqsura. */
  predicate IsAlefMaqsura(c: char) { c == '\U{0649}' }

  /** ة, ta marbuta. */
  predicate IsTaMarbuta(c: char) { c == '\U{0629}' }

  /** ؤ, waw with hamza. */
  predicate IsWawHamza(c: char) { c == '\U{0624}' }

  /** ئ, ya with hamza. */
  predicate IsYaHamza(c: char) { c == '\U{0626}' }

  predicate IsDash(c: char) { c == '-' }

  /** `normalizeArabic(text)`, the nine steps in their source order. */
  function NormalizeArabic(text: string): string {
    var noMarks := ReplaceAll(text, IsDiacritic, "");
    var alef := ReplaceAll(noMarks, IsAlefVariant, [Alef]);
    var maqsura := ReplaceAll(alef, IsAlefMaqsura, [Ya]);
    var marbuta := ReplaceAll(maqsura, IsTaMarbuta, [Ha]);
    var waw := ReplaceAll(marbuta, IsWawHamza, [Waw]);
    var ya := ReplaceAll(waw, IsYaHamza, [Ya]);
    var noDashes := ReplaceAll(ya, IsDash, "");
    var noSpaces := ReplaceAll(noDashes, IsWhitespace, "");
    ToLowerCase(noSpaces)
  }

  /** The characters the normaliser deletes. */
  predicate IsRemovable(c: char) { IsDiacritic(c) || IsDash(c) || IsWhitespace(c) }

  /** The letters the normaliser rewrites to another letter (bare alef is kept as it is). */
  predicate IsLetterVariant(c: char) {
    c == '\U{0625}' || c == '\U{0623}' || c == '\U{0622}'
    || IsAlefMaqsura(c) || IsTaMarbuta(c) || IsWawHamza(c) || IsYaHamza(c)
  }

  /** A character that can appear in normalised text. */
  predicate IsCanonical(c: char) {
    !IsRemovable(c) && !IsLetterVariant(c) && !IsAsciiUpper(c)
  }

  /** What the whole chain does to one character, stated as a single rule table. */
  function NormalizeChar(c: char): string {
    if IsRemovable(c) then ""
    else if IsAlefVariant(c) then [Alef]
    else if IsAlefMaqsura(c) || IsYaHamza(c) then [Ya]
    else if IsTaMarbuta(c) then [Ha]
    else if IsWawHamza(c) then [Waw]
    else [AsciiLower(c)]
  }

  /**
   * The rule table deletes exactly the removable characters, emits at most one
   * character and only canonical ones, and leaves canonical characters alone.
   */
  lemma NormalizeCharSpec(c: char)
    ensures |NormalizeChar(c)| <= 1
    ensures NormalizeChar(c) == [] <==> IsRemovable(c)
    ensures forall d :: d in NormalizeChar(c) ==> IsCanonical(d)
    ensures IsCanonical(c) ==> NormalizeChar(c) == [c]
  {
  }

  /** The single left-to-right pass: each character is rewritten on its own. */
  function OnePass(s: string): string {
    if s == [] then [] else NormalizeChar(s[0]) + OnePass(s[1..])
  }

  lemma {:induction false} OnePassIsCanonical(s: string)
    ensures |OnePass(s)| <= |s|
    ensures forall c :: c in OnePass(s) ==> IsCanonical(c)
  {
    if s != [] {
      NormalizeCharSpec(s[0]);
      OnePassIsCanonical(s[1..]);
    }
  }

  /** The nine-step chain distributes over concatenation. */
  lemma NormalizeArabicConcat(a: string, b: string)
    ensures NormalizeArabic(a + b) == NormalizeArabic(a) + NormalizeArabic(b)
  {
    var x, y := a, b;
    ReplaceAllConcat(x, y, IsDiacritic, "");
    x, y := ReplaceAll(x, IsDiacritic, ""), ReplaceAll(y, IsDiacritic, "");
    ReplaceAllConcat(x, y, IsAlefVariant, [Alef]);
    x, y := ReplaceAll(x, IsAlefVariant, [Alef]), ReplaceAll(y, IsAlefVariant, [Alef]);
    ReplaceAllConcat(x, y, IsAlefMaqsura, [Ya]);
    x, y := ReplaceAll(x, IsAlefMaqsura, [Ya]), ReplaceAll(y, IsAlefMaqsura, [Ya]);
    ReplaceAllConcat(x, y, IsTaMarbuta, [Ha]);
    x, y := ReplaceAll(x, IsTaMarbuta, [Ha]), ReplaceAll(y, IsTaMarbuta, [Ha]);
    ReplaceAllConcat(x, y, IsWawHamza, [Waw]);
    x, y := ReplaceAll(x, IsWawHamza, [Waw]), ReplaceAll(y, IsWawHamza, [Waw]);
    ReplaceAllConcat(x, y, IsYaHamza, [Ya]);
    x, y := ReplaceAll(x, IsYaHamza, [Ya]), ReplaceAll(y, IsYaHamza, [Ya]);
    ReplaceAllConcat(x, y, IsDash, "");
    x, y := ReplaceAll(x, IsDash, ""), ReplaceAll(y, IsDash, "");
    ReplaceAllConcat(x, y, IsWhitespace, "");
    x, y := ReplaceAll(x, IsWhitespace, ""), ReplaceAll(y, IsWhitespace, "");
    ToLowerCaseConcat(x, y);
  }

  /** On a single character the chain does what the rule table says. */
  lemma NormalizeArabicChar(c: char)
    ensures NormalizeArabic([c]) == NormalizeChar(c)
  {
    if IsDiacritic(c) {
      ReplacedBy(c, IsDiacritic, "");
    } else if IsAlefVariant(c) {
      KeptBy(c, IsDiacritic, "");
      ReplacedBy(c, IsAlefVariant, [Alef]);
      KeptBy(Alef, IsAlefMaqsura, [Ya]);
      KeptBy(Alef, IsTaMarbuta, [Ha]);
      KeptBy(Alef, IsWawHamza, [Waw]);
      KeptBy(Alef, IsYaHamza, [Ya]);
      KeptBy(Alef, IsDash, "");
      KeptBy(Alef, IsWhitespace, "");
    } else if IsAlefMaqsura(c) {
      KeptBy(c, IsDiacritic, "");
      KeptBy(c, IsAlefVariant, [Alef]);
      ReplacedBy(c, IsAlefMaqsura, [Ya]);
      KeptBy(Ya, IsTaMarbuta, [Ha]);
      KeptBy(Ya, IsWawHamza, [Waw]);
      KeptBy(Ya, IsYaHamza, [Ya]);
      KeptBy(Ya, IsDash, "");
      KeptBy(Ya, IsWhitespace, "");
    } else if IsTaMarbuta(c) {
      KeptBy(c, IsDiacritic, "");
      KeptBy(c, IsAlefVariant, [Alef]);
      KeptBy(c, IsAlefMaqsura, [Ya]);
      ReplacedBy(c, IsTaMarbuta, [Ha]);
      KeptBy(Ha, IsWawHamza, [Waw]);
      KeptBy(Ha, IsYaHamza, [Ya]);
      KeptBy(Ha, IsDash, "");
      KeptBy(Ha, IsWhitespace, "");
    } else if IsWawHamza(c) {
      KeptBy(c, IsDiacritic, "");
      KeptBy(c, IsAlefVariant, [Alef]);
      KeptBy(c, IsAlefMaqsura, [Ya]);
      KeptBy(c, IsTaMarbuta, [Ha]);
      ReplacedBy(c, IsWawHamza, [Waw]);
      KeptBy(Waw, IsYaHamza, [Ya]);
      KeptBy(Waw, IsDash, "");
      KeptBy(Waw, IsWhitespace, "");
    } else if IsYaHamza(c) {
      KeptBy(c, IsDiacritic, "");
      KeptBy(c, IsAlefVariant, [Alef]);
      KeptBy(c, IsAlefMaqsura, [Ya]);
      KeptBy(c, IsTaMarbuta, [Ha]);
      KeptBy(c, IsWawHamza, [Waw]);
      ReplacedBy(c, IsYaHamza, [Ya]);
      KeptBy(Ya, IsDash, "");
      KeptBy(Ya, IsWhitespace, "");
    } else if IsDash(c) {
      KeptBy(c, IsDiacritic, "");
      KeptBy(c, IsAlefVariant, [Alef]);
      KeptBy(c, IsAlefMaqsura, [Ya]);
      KeptBy(c, IsTaMarbuta, [Ha]);
      KeptBy(c, IsWawHamza, [Waw]);
      KeptBy(c, IsYaHamza, [Ya]);
      ReplacedBy(c, IsDash, "");
    } else if IsWhitespace(c) {
      KeptBy(c, IsDiacritic, "");
      KeptBy(c, IsAlefVariant, [Alef]);
      KeptBy(c, IsAlefMaqsura, [Ya]);
      KeptBy(c, IsTaMarbuta, [Ha]);
      KeptBy(c, IsWawHamza, [Waw]);
      KeptBy(c, IsYaHamza, [Ya]);
      KeptBy(c, IsDash, "");
      ReplacedBy(c, IsWhitespace, "");
    } else {
      KeptBy(c, IsDiacritic, "");
      KeptBy(c, IsAlefVariant, [Alef]);
      KeptBy(c, IsAlefMaqsura, [Ya]);
      KeptBy(c, IsTaMarbuta, [Ha]);
      KeptBy(c, IsWawHamza, [Waw]);
      KeptBy(c, IsYaHamza, [Ya]);
      KeptBy(c, IsDash, "");
      KeptBy(c, IsWhitespace, "");
    }
  }

  lemma ReplacedBy(c: char, inClass: char -> bool, repl: string)
    requires inClass(c)
    ensures ReplaceAll([c], inClass, repl) == repl
  {
    ReplaceAllShort([c], inClass, repl);
  }

  lemma KeptBy(c: char, inClass: char -> bool, repl: string)
    requires !inClass(c)
    ensures ReplaceAll([c], inClass, repl) == [c]
  {
    ReplaceAllShort([c], inClass, repl);
  }

  /** Every rewrite matches one character, so the nine-step chain is one per-character pass. */
  lemma {:induction false} NormalizeArabicIsOnePass(s: string)
    ensures NormalizeArabic(s) == OnePass(s)
  {
    if s != [] {
      assert s == [s[0]] + s[1..];
      NormalizeArabicConcat([s[0]], s[1..]);
      NormalizeArabicChar(s[0]);
      NormalizeArabicIsOnePass(s[1..]);
    }
  }

  /**
   * The output holds no diacritic, no alef, ya, ta or waw variant, no dash, no
   * whitespace and no ASCII capital, and is no longer than the input.
   */
  lemma NormalizedIsCanonical(s: string)
    ensures forall c :: c in NormalizeArabic(s) ==> IsCanonical(c)
    ensures |NormalizeArabic(s)| <= |s|
  {
    NormalizeArabicIsOnePass(s);
    OnePassIsCanonical(s);
  }

  lemma {:induction false} OnePassOfCanonical(s: string)
    requires forall c :: c in s ==> IsCanonical(c)
    ensures OnePass(s) == s
  {
    if s != [] {
      assert s[0] in s;
      assert forall c :: c in s[1..] ==> c in s;
      NormalizeCharSpec(s[0]);
      OnePassOfCanonical(s[1..]);
    }
  }

  /** Normalising normalised text changes nothing. */
  lemma NormalizeArabicIdempotent(s: string)
    ensures NormalizeArabic(NormalizeArabic(s)) == NormalizeArabic(s)
  {
    NormalizeArabicIsOnePass(s);
    NormalizeArabicIsOnePass(OnePass(s));
    OnePassIsCanonical(s);
    OnePassOfCanonical(OnePass(s));
  }

  lemma {:induction false} OnePassOfRemovable(s: string)
    requires forall c :: c in s ==> IsRemovable(c)
    ensures OnePass(s) == ""
  {
    if s != [] {
      assert s[0] in s;
      assert forall c :: c in s[1..] ==> c in s;
      NormalizeCharSpec(s[0]);
      OnePassOfRemovable(s[1..]);
    }
  }

  /** Text made only of whitespace, dashes and diacritics (the empty text among it) normalises to "". */
  lemma NormalizeRemovable(s: string)
    requires forall c :: c in s ==> IsRemovable(c)
    ensures NormalizeArabic(s) == ""
  {
    NormalizeArabicIsOnePass(s);
    OnePassOfRemovable(s);
  }

  /** Inserting whitespace, dashes or diacritics anywhere does not change the normal form. */
  lemma NormalizeIgnoresInsertedRemovable(a: string, x: string, b: string)
    requires forall c :: c in x ==> IsRemovable(c)
    ensures NormalizeArabic(a + x + b) == NormalizeArabic(a + b)
  {
    NormalizeRemovable(x);
    calc {
      NormalizeArabic(a + x + b);
      { NormalizeArabicConcat(a + x, b); }
      NormalizeArabic(a + x) + NormalizeArabic(b);
      { NormalizeArabicConcat(a, x); }
      NormalizeArabic(a) + NormalizeArabic(x) + NormalizeArabic(b);
      NormalizeArabic(a) + NormalizeArabic(b);
      { NormalizeArabicConcat(a, b); }
      NormalizeArabic(a + b);
    }
  }

  lemma OnePassUnfold(s: string)
    requires s != []
    ensures OnePass(s) == NormalizeChar(s[0]) + OnePass(s[1..])
  {
  }

  /** The vowelled spelling of "Ahmad" loses its marks and its hamza. */
  lemma AhmadVowelled(vowelled: string)
    requires vowelled == "أَحْمَد"
    ensures NormalizeArabic(vowelled) == "احمد"
  {
    NormalizeArabicIsOnePass(vowelled);
    OnePassUnfold(vowelled);
    OnePassUnfold(vowelled[1..]);
    OnePassUnfold(vowelled[2..]);
    OnePassUnfold(vowelled[3..]);
    OnePassUnfold(vowelled[4..]);
    OnePassUnfold(vowelled[5..]);
    OnePassUnfold(vowelled[6..]);
  }

  /** The plain spelling of "Ahmad" is already normal. */
  lemma AhmadPlain(plain: string)
    requires plain == "احمد"
    ensures NormalizeArabic(plain) == plain
  {
    NormalizeArabicIsOnePass(plain);
    OnePassUnfold(plain);
    OnePassUnfold(plain[1..]);
    OnePassUnfold(plain[2..]);
    OnePassUnfold(plain[3..]);
  }

  /** The vowelled and the plain spelling of "Ahmad" normalise alike. */
  lemma AhmadExample(vowelled: string, plain: string)
    requires vowelled == "أَحْمَد" && plain == "احمد"
    ensures NormalizeArabic(vowelled) == NormalizeArabic(plain)
  {
    AhmadVowelled(vowelled);
    AhmadPlain(plain);
  }

  /** The first criterion: the lower-cased English name includes the lower-cased raw query. */
  predicate EnglishNameMatches(surah: Surah, query: string) {
    Includes(ToLowerCase(surah.englishName), ToLowerCase(query))
  }

  /** The second criterion: the normalised Arabic name includes the normalised query. */
  predicate ArabicNameMatches(surah: Surah, query: string) {
    Includes(NormalizeArabic(surah.name), NormalizeArabic(query))
  }

  /** The third criterion: the lower-cased name translation includes the lower-cased raw query. */
  predicate TranslationMatches(surah: Surah, query: string) {
    Includes(ToLowerCase(surah.englishNameTranslation), ToLowerCase(query))
  }

  predicate SurahMatches(surah: Surah, query: string) {
    EnglishNameMatches(surah, query) || ArabicNameMatches(surah, query) || TranslationMatches(surah, query)
  }

  /** `filteredSurahs`: the surahs meeting any of the three criteria, in list order. */
  function FilteredSurahs(surahs: seq<Surah>, searchQuery: string): (r: seq<Surah>)
    ensures IsSubsequence(r, surahs)
    ensures forall s :: s in r <==> s in surahs && SurahMatches(s, searchQuery)
    ensures forall s :: SurahMatches(s, searchQuery) ==> multiset(r)[s] == multiset(surahs)[s]
  {
    Filter(surahs, s => SurahMatches(s, searchQuery))
  }

  /** A query of only whitespace, dashes and diacritics (the empty query too) keeps every surah. */
  lemma RemovableQueryKeepsAll(surahs: seq<Surah>, query: string)
    requires forall c :: c in query ==> IsRemovable(c)
    ensures FilteredSurahs(surahs, query) == surahs
  {
    NormalizeRemovable(query);
    forall i | 0 <= i < |surahs| ensures SurahMatches(surahs[i], query) {
      IncludesEmpty(NormalizeArabic(surahs[i].name));
    }
    FilterKeepsAll(surahs, s => SurahMatches(s, query));
  }

  /** The Arabic-name criterion gives one verdict for queries that differ by inserted removable characters. */
  lemma ArabicCriterionIgnoresRemovableInQuery(surah: Surah, a: string, x: string, b: string)
    requires forall c :: c in x ==> IsRemovable(c)
    ensures ArabicNameMatches(surah, a + x + b) == ArabicNameMatches(surah, a + b)
  {
    NormalizeIgnoresInsertedRemovable(a, x, b);
  }

  /** Two names that differ only by diacritics (or spaces, dashes) match exactly the same queries. */
  lemma ArabicCriterionIgnoresRemovableInName(surah: Surah, a: string, x: string, b: string, query: string)
    requires forall c :: c in x ==> IsRemovable(c)
    ensures ArabicNameMatches(surah.(name := a + x + b), query) == ArabicNameMatches(surah.(name := a + b), query)
  {
    NormalizeIgnoresInsertedRemovable(a, x, b);
  }

  /** The normaliser brings in no ASCII letter the text did not have in either case. */
  lemma {:induction false} NormalizeAddsNoLatin(s: string, c: char)
    requires 'a' <= c <= 'z'
    requires c !in s && (c as int - 32) as char !in s
    ensures c !in NormalizeArabic(s)
  {
    NormalizeArabicIsOnePass(s);
    OnePassAddsNoLatin(s, c);
  }

  lemma {:induction false} OnePassAddsNoLatin(s: string, c: char)
    requires 'a' <= c <= 'z'
    requires c !in s && (c as int - 32) as char !in s
    ensures c !in OnePass(s)
  {
    if s != [] {
      assert s[0] in s;
      assert forall d :: d in s[1..] ==> d in s;
      OnePassAddsNoLatin(s[1..], c);
    }
  }

  /** "l-f" and "lf" have the same normal form, "lf". */
  lemma DashedQueryNormalForm(dashed: string, plain: string)
    requires dashed == "l-f" && plain == "lf"
    ensures NormalizeArabic(dashed) == NormalizeArabic(plain) == plain
  {
    NormalizeArabicIsOnePass(dashed);
    OnePassUnfold(dashed);
    OnePassUnfold(dashed[1..]);
    OnePassUnfold(dashed[2..]);
    NormalizeArabicIsOnePass(plain);
    OnePassUnfold(plain);
    OnePassUnfold(plain[1..]);
  }

  /** "Al-Faatiha" includes "l-f" but not "lf" once lower-cased. */
  lemma EnglishNameVerdicts(englishName: string, dashed: string, plain: string)
    requires englishName == "Al-Faatiha" && dashed == "l-f" && plain == "lf"
    ensures Includes(ToLowerCase(englishName), ToLowerCase(dashed))
    ensures !Includes(ToLowerCase(englishName), ToLowerCase(plain))
  {
    var name := ToLowerCase(englishName);
    assert name == "al-faatiha";
    assert ToLowerCase(dashed) == dashed && ToLowerCase(plain) == plain;
    assert StartsWith(name[1..], dashed);
    assert !StartsWith(name, plain) && !StartsWith(name[1..], plain);
    assert 'l' !in name[2..];
    IncludesOnlyPresentChars(name[2..], plain, 'l');
  }

  /**
   * The English criteria use the raw query: "l-f" and "lf" normalise alike,
   * yet only "l-f" finds Al-Faatiha (by its English name), since no
   * criterion finds "lf".
   */
  lemma EnglishCriterionSeesDashes(surah: Surah, dashed: string, plain: string)
    requires dashed == "l-f" && plain == "lf"
    requires surah.englishName == "Al-Faatiha" && surah.englishNameTranslation == "The Opening"
    requires 'l' !in surah.name && 'L' !in surah.name
    ensures NormalizeArabic(dashed) == NormalizeArabic(plain)
    ensures SurahMatches(surah, dashed)
    ensures !SurahMatches(surah, plain)
  {
    DashedQueryNormalForm(dashed, plain);
    EnglishNameVerdicts(surah.englishName, dashed, plain);
    NormalizeAddsNoLatin(surah.name, 'l');
    IncludesOnlyPresentChars(NormalizeArabic(surah.name), plain, 'l');
    TranslationLacksQuery(surah.englishNameTranslation, plain);
  }

  /** "The Opening" does not include "lf" once lower-cased. */
  lemma TranslationLacksQuery(translation: string, plain: string)
    requires translation == "The Opening" && plain == "lf"
    ensures !Includes(ToLowerCase(translation), ToLowerCase(plain))
  {
    var lowered := ToLowerCase(translation);
    assert lowered == "the opening";
    assert ToLowerCase(plain) == plain;
    IncludesOnlyPresentChars(lowered, plain, 'l');
  }
}
