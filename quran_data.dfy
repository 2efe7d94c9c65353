/**
 * The records of the Quran data hook (src/use-quran-data.ts) and the pure
 * parts of it: merging the Arabic ayahs of a surah with their translation,
 * and the local-storage key under which a surah's ayahs are cached.
 */
module QuranData {
  import opened JsString

  /** A surah (chapter) as the surah list delivers it. */
  datatype Surah = Surah(
    number: int,
    name: string,
    englishName: string,
    englishNameTranslation: string,
    numberOfAyahs: int,
    revelationType: string)

  /** An ayah of the Arabic edition, as far as the merge reads it. */
  datatype ArabicAyah = ArabicAyah(numberInSurah: int, text: string)

  /** An ayah of the translation edition, as far as the merge reads it. */
  datatype TranslationAyah = TranslationAyah(text: string)

  /** An ayah as the reader displays it. */
  datatype Ayah = Ayah(id: int, text: string, translation: string)

  /** `tr.data.ayahs[i]?.text || ""`: the i-th translation, or "" when there is none. */
  function TranslationAt(tr: seq<TranslationAyah>, i: nat): (t: string)
    ensures i < |tr| ==> t == tr[i].text
    ensures i >= |tr| ==> t == ""
  {
    if i < |tr| && tr[i].text != "" then tr[i].text else ""
  }

  /**
   * `data.data.ayahs.map((a, i) => ({id: a.numberInSurah, text: a.text,
   * translation: tr.data.ayahs[i]?.text || ""}))`.
   */
  function MergeAyahs(data: seq<ArabicAyah>, tr: seq<TranslationAyah>): (r: seq<Ayah>)
    ensures |r| == |data|
    ensures forall i :: 0 <= i < |data| ==>
      r[i].id == data[i].numberInSurah && r[i].text == data[i].text
    ensures forall i :: 0 <= i < |data| ==>
      r[i].translation == (if i < |tr| then tr[i].text else "")
  {
    seq(|data|, i requires 0 <= i < |data| => Ayah(data[i].numberInSurah, data[i].text, TranslationAt(tr, i)))
  }

  /**
   * The second copy of the merge, run when no cached ayahs exist. Defined
   * here independently, ayah by ayah from the front of both lists, it
   * builds the same list as the copy in the background refresh.
   */
  function MergeAyahsFetched(data: seq<ArabicAyah>, tr: seq<TranslationAyah>): (r: seq<Ayah>)
    ensures r == MergeAyahs(data, tr)
  {
    if data == [] then []
    else
      var rest := MergeAyahsFetched(data[1..], if tr == [] then [] else tr[1..]);
      [Ayah(data[0].numberInSurah, data[0].text, TranslationAt(tr, 0))] + rest
  }

  /** Translation entries past the last Arabic ayah are never read. */
  lemma MergeIgnoresExtraTranslations(data: seq<ArabicAyah>, tr: seq<TranslationAyah>, extra: seq<TranslationAyah>)
    requires |data| <= |tr|
    ensures MergeAyahs(data, tr + extra) == MergeAyahs(data, tr)
  {
  }

  /** With no translation at all the merge keeps the Arabic text and leaves every translation empty. */
  lemma MergeWithoutTranslation(data: seq<ArabicAyah>)
    ensures forall i :: 0 <= i < |data| ==> MergeAyahs(data, [])[i] == Ayah(data[i].numberInSurah, data[i].text, "")
  {
  }

  /**
   * The merge aligns by position: merging two halves of the Arabic list
   * against the matching halves of the translation list gives the halves
   * of the whole merge.
   */
  lemma MergeSplits(d1: seq<ArabicAyah>, d2: seq<ArabicAyah>, t1: seq<TranslationAyah>, t2: seq<TranslationAyah>)
    requires |t1| == |d1|
    ensures MergeAyahs(d1 + d2, t1 + t2) == MergeAyahs(d1, t1) + MergeAyahs(d2, t2)
  {
    var whole, left, right := MergeAyahs(d1 + d2, t1 + t2), MergeAyahs(d1, t1), MergeAyahs(d2, t2);
    forall i | 0 <= i < |whole| ensures whole[i] == (left + right)[i] {
      if i >= |d1| {
        assert (d1 + d2)[i] == d2[i - |d1|];
        assert i < |t1 + t2| <==> i - |d1| < |t2|;
        assert i < |t1 + t2| ==> (t1 + t2)[i] == t2[i - |d1|];
      }
    }
  }

  /** `` `ayahs-${selectedSurah.number}` ``, for the non-negative surah numbers. */
  function AyahCacheKey(surahNumber: nat): (key: string)
    ensures |key| > 6 && key[..6] == "ayahs-"
    ensures key[6..] == Decimal(surahNumber)
  {
    "ayahs-" + Decimal(surahNumber)
  }

  /** Different surahs are cached under different keys. */
  lemma AyahCacheKeyInjective(m: nat, n: nat)
    requires m != n
    ensures AyahCacheKey(m) != AyahCacheKey(n)
  {
    DecimalInjective(m, n);
    assert AyahCacheKey(m)[6..] == Decimal(m);
    assert AyahCacheKey(n)[6..] == Decimal(n);
  }

  /** The cache key can be read back: its digits give the surah number. */
  lemma AyahCacheKeyParses(n: nat)
    ensures ParseDecimal(AyahCacheKey(n)[6..]) == n
  {
    ParseDecimalInverts(n);
  }
}
