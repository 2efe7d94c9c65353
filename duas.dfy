/**
 * The daily duas page (src/components/pages/duas.tsx): the fixed table of
 * duas, the category list, and `filteredDuas`, which keeps the duas of the
 * selected category whose title, transliteration or translation contains the
 * search query, ignoring ASCII case.
 */
module Duas {
  import opened Optional
  import opened JsString
  import opened JsArray

  /** A supplication; `reference` is optional in the record type. */
  datatype Dua = Dua(
    id: int,
    title: string,
    arabic: string,
    transliteration: string,
    translation: string,
    category: string,
    reference: Option<string>)

  /** The ids of the category buttons; "all" is the initial selection. */
  const CategoryIds: seq<string> :=
    ["all", "morning", "evening", "food", "travel", "home", "study", "general"]

  /** The table the page filters. */
  const Table: seq<Dua> := [
    Dua(1, "Morning Remembrance",
      "أَصْبَحْنَا وَأَصْبَحَ الْمُلْكُ لِلَّهِ، وَالْحَمْدُ لِلَّهِ",
      "Asbahna wa asbahal-mulku lillahi, walhamdu lillah",
      "We have reached the morning and at this very time unto Allah belongs all sovereignty, and all praise is for Allah.",
      "morning", Some("Muslim 2723")),
    Dua(2, "Evening Remembrance",
      "أَمْسَيْنَا وَأَمْسَى الْمُلْكُ لِلَّهِ، وَالْحَمْدُ لِلَّهِ",
      "Amsayna wa amsal-mulku lillahi, walhamdu lillah",
      "We have reached the evening and at this very time unto Allah belongs all sovereignty, and all praise is for Allah.",
      "evening", Some("Muslim 2723")),
    Dua(3, "Before Eating",
      "بِسْمِ اللَّهِ",
      "Bismillah",
      "In the name of Allah.",
      "food", Some("Abu Dawud 3767")),
    Dua(4, "After Eating",
      "الْحَمْدُ لِلَّهِ الَّذِي أَطْعَمَنِي هَذَا وَرَزَقَنِيهِ مِنْ غَيْرِ حَوْلٍ مِنِّي وَلَا قُوَّةٍ",
      "Alhamdu lillahil-ladhi at'amani hadha wa razaqanihi min ghayri hawlin minni wa la quwwah",
      "All praise is due to Allah who has fed me this and provided it for me without any might nor power from myself.",
      "food", Some("Abu Dawud 4023")),
    Dua(5, "When Leaving Home",
      "بِسْمِ اللَّهِ، تَوَكَّلْتُ عَلَى اللَّهِ، وَلَا حَوْلَ وَلَا قُوَّةَ إِلَّا بِاللَّهِ",
      "Bismillahi, tawakkaltu 'alallahi, wa la hawla wa la quwwata illa billah",
      "In the name of Allah, I place my trust in Allah, and there is no might nor power except with Allah.",
      "home", Some("Abu Dawud 5095")),
    Dua(6, "When Entering Home",
      "اللَّهُمَّ إِنِّي أَسْأَلُكَ خَيْرَ الْمَوْلِجِ وَخَيْرَ الْمَخْرَجِ",
      "Allahumma inni as'aluka khayral-mawliji wa khayral-makhraji",
      "O Allah, I ask You for the best of entering and the best of exiting.",
      "home", Some("Abu Dawud 5096")),
    Dua(7, "For Knowledge",
      "رَبِّ زِدْنِي عِلْمًا",
      "Rabbi zidni 'ilma",
      "My Lord, increase me in knowledge.",
      "study", Some("Quran 20:114")),
    Dua(8, "When Starting a Journey",
      "سُبْحَانَ الَّذِي سَخَّرَ لَنَا هَذَا وَمَا كُنَّا لَهُ مُقْرِنِينَ",
      "Subhanal-ladhi sakhkhara lana hadha wa ma kunna lahu muqrinin",
      "Glory is to Him who has subjected this to us, and we could never have it (by our efforts).",
      "travel", Some("Quran 43:13")),
    Dua(9, "Seeking Forgiveness",
      "أَسْتَغْفِرُ اللَّهَ الْعَظِيمَ الَّذِي لَا إِلَهَ إِلَّا هُوَ الْحَيُّ الْقَيُّومُ وَأَتُوبُ إِلَيْهِ",
      "Astaghfirullaha al-'Azeem al-ladhi la ilaha illa Huwa al-Hayyu al-Qayyumu wa atubu ilayh",
      "I seek forgiveness of Allah the Mighty, whom there is none worthy of worship except Him, the Living, the Eternal, and I repent unto Him.",
      "general", Some("Abu Dawud 1517")),
    Dua(10, "Protection from Evil",
      "أَعُوذُ بِكَلِمَاتِ اللَّهِ التَّامَّاتِ مِنْ شَرِّ مَا خَلَقَ",
      "A'udhu bi kalimatillahi at-tammati min sharri ma khalaq",
      "I seek refuge in the perfect words of Allah from the evil of what He has created.",
      "general", Some("Muslim 2708"))
  ]

  /** `selectedCategory === "all" || dua.category === selectedCategory`. */
  predicate MatchesCategory(dua: Dua, selectedCategory: string) {
    selectedCategory == "all" || dua.category == selectedCategory
  }

  /** The lower-cased query occurs in the lower-cased title, transliteration or translation. */
  predicate MatchesSearch(dua: Dua, searchQuery: string) {
    || Includes(ToLowerCase(dua.title), ToLowerCase(searchQuery))
    || Includes(ToLowerCase(dua.transliteration), ToLowerCase(searchQuery))
    || Includes(ToLowerCase(dua.translation), ToLowerCase(searchQuery))
  }

  predicate Keeps(dua: Dua, selectedCategory: string, searchQuery: string) {
    MatchesCategory(dua, selectedCategory) && MatchesSearch(dua, searchQuery)
  }

  /**
   * `filteredDuas`: the duas meeting both the category and the search
   * condition, in table order, each as often as it occurs.
   */
  function FilteredDuas(duas: seq<Dua>, selectedCategory: string, searchQuery: string): (r: seq<Dua>)
    ensures IsSubsequence(r, duas)
    ensures forall d :: d in r <==> d in duas && MatchesCategory(d, selectedCategory) && MatchesSearch(d, searchQuery)
    ensures forall d :: Keeps(d, selectedCategory, searchQuery) ==> multiset(r)[d] == multiset(duas)[d]
  {
    Filter(duas, d => Keeps(d, selectedCategory, searchQuery))
  }

  /** The table holds ten duas with ids 1..10, each filed under a category button other than "all". */
  lemma TableShape()
    ensures |Table| == 10
    ensures forall i :: 0 <= i < |Table| ==> Table[i].id == i + 1
    ensures forall i :: 0 <= i < |Table| ==> Table[i].category in CategoryIds[1..]
  {
  }

  /** Category "all" filters by the search alone; any other category keeps only duas filed under it exactly. */
  lemma CategoryCondition(duas: seq<Dua>, selectedCategory: string, searchQuery: string)
    ensures selectedCategory == "all" ==>
      FilteredDuas(duas, selectedCategory, searchQuery) == Filter(duas, d => MatchesSearch(d, searchQuery))
    ensures selectedCategory != "all" ==>
      forall d :: d in FilteredDuas(duas, selectedCategory, searchQuery) ==> d.category == selectedCategory
  {
    if selectedCategory == "all" {
      FilterCongruent(duas, d => Keeps(d, selectedCategory, searchQuery), d => MatchesSearch(d, searchQuery));
    }
  }

  /** With the initial state, category "all" and the empty query, the list is returned unchanged. */
  lemma InitialStateKeepsAll(duas: seq<Dua>)
    ensures FilteredDuas(duas, "all", "") == duas
  {
    forall i | 0 <= i < |duas| ensures Keeps(duas[i], "all", "") {
      IncludesEmpty(ToLowerCase(duas[i].title));
    }
    FilterKeepsAll(duas, d => Keeps(d, "all", ""));
  }

  /** The initial page shows all ten duas of the table. */
  lemma InitialPageShowsTable()
    ensures FilteredDuas(Table, "all", "") == Table
    ensures |FilteredDuas(Table, "all", "")| == 10
  {
    InitialStateKeepsAll(Table);
    TableShape();
  }

  /** Neither the Arabic text nor the reference takes part in the search or the category check. */
  lemma ArabicAndReferenceIgnored(dua: Dua, arabic: string, reference: Option<string>,
                                  selectedCategory: string, searchQuery: string)
    ensures Keeps(dua.(arabic := arabic, reference := reference), selectedCategory, searchQuery)
        == Keeps(dua, selectedCategory, searchQuery)
  {
  }

  /** Queries that differ only in the case of ASCII letters give the same list. */
  lemma SearchIsCaseInsensitive(duas: seq<Dua>, selectedCategory: string, q1: string, q2: string)
    requires SameUpToAsciiCase(q1, q2)
    ensures FilteredDuas(duas, selectedCategory, q1) == FilteredDuas(duas, selectedCategory, q2)
  {
    SameUpToAsciiCaseLowerEqual(q1, q2);
    FilterCongruent(duas, d => Keeps(d, selectedCategory, q1), d => Keeps(d, selectedCategory, q2));
  }

  /** A dua that contains a query also contains every piece of it. */
  lemma SearchNarrows(dua: Dua, q: string, q': string)
    requires Includes(q, q')
    requires MatchesSearch(dua, q)
    ensures MatchesSearch(dua, q')
  {
    ToLowerCaseKeepsIncludes(q, q');
    var lq, lq' := ToLowerCase(q), ToLowerCase(q');
    if Includes(ToLowerCase(dua.title), lq) {
      IncludesTransitive(ToLowerCase(dua.title), lq, lq');
    } else if Includes(ToLowerCase(dua.transliteration), lq) {
      IncludesTransitive(ToLowerCase(dua.transliteration), lq, lq');
    } else {
      IncludesTransitive(ToLowerCase(dua.translation), lq, lq');
    }
  }

  /** Shortening the query to a piece of it only adds duas: the old list is a subsequence of the new one. */
  lemma FilterNarrows(duas: seq<Dua>, selectedCategory: string, q: string, q': string)
    requires Includes(q, q')
    ensures IsSubsequence(FilteredDuas(duas, selectedCategory, q), FilteredDuas(duas, selectedCategory, q'))
  {
    forall i | 0 <= i < |duas| && Keeps(duas[i], selectedCategory, q)
      ensures Keeps(duas[i], selectedCategory, q')
    {
      SearchNarrows(duas[i], q, q');
    }
    FilterMonotone(duas, d => Keeps(d, selectedCategory, q), d => Keeps(d, selectedCategory, q'));
  }
}
