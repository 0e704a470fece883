/** The directory view (components/DevoteeList.tsx): the search and gothram filter over the
    devotee list, and the two helpers that show bilingual `"English / Telugu"` texts. */
module DevoteeList {
  import opened Seqs
  import opened Strings
  import opened Records

  // ---------------------------------------------------------------- bilingual labels

  /** The separator of a stored bilingual text. */
  const Separator: string := " / "

  /** `getLabel(en, te)`: one language, or both joined by the separator; two slash-free
      parts can be split back out of the joined form. */
  function GetLabel(en: string, te: string, lang: Language): (r: string)
    ensures lang == En ==> r == en
    ensures lang == Te ==> r == te
    ensures lang == Both && '/' !in en && '/' !in te ==> Split(r, Separator) == [en, te]
  {
    match lang
    case En => en
    case Te => te
    case Both =>
      var r := en + Separator + te;
      assert ('/' !in en && '/' !in te) ==> Split(r, Separator) == [en, te] by {
        if '/' !in en && '/' !in te {
          SplitSlashSeparator(en, te);
          SplitNoSlash(te);
        }
      }
      r
  }

  /** `formatBilingual(text)` of the directory: with a separator, English is the text before
      the first separator and Telugu the text after it up to the next one; `both` shows the
      stored text. Without a separator the text is shown as it is. */
  function FormatBilingual(text: string, lang: Language): (r: string)
    ensures text == "" ==> r == ""
    ensures !Contains(text, Separator) ==> r == text
    ensures Contains(text, Separator) && lang == En ==> r == BeforeFirst(text, Separator)
    ensures Contains(text, Separator) && lang == Te ==> r == BeforeFirst(AfterFirst(text, Separator), Separator)
    ensures Contains(text, Separator) && lang == Both ==> r == text
  {
    if text == "" then ""
    else if Contains(text, Separator) then
      var p := Split(text, Separator);
      assert |p| >= 2 && p[1] == Split(AfterFirst(text, Separator), Separator)[0];
      match lang
      case En => p[0]
      case Te => p[1]
      case Both => text
    else text
  }

  /** Showing a label written in both languages gives, in every language, what the label
      helper gives for the two parts. */
  lemma FormatBilingualOfLabel(en: string, te: string, lang: Language)
    requires '/' !in en && '/' !in te
    ensures FormatBilingual(GetLabel(en, te, Both), lang) == GetLabel(en, te, lang)
  {
    var text := en + Separator + te;
    IndexOfSlashSeparator(en, te);
    SplitSlashSeparator(en, te);
    SplitNoSlash(te);
  }

  // ---------------------------------------------------------------- the filter

  /** `GOTHRAMS[0]` of constants.ts, the "no gothram filter" choice. */
  const AllGothrams: string := "Select Gothram / గోత్రమును ఎంచుకోండి"

  /** The search test against an already lower-cased term (DevoteeList.tsx:43-45). */
  predicate MatchesSearch(d: Devotee, term: string) {
    Contains(ToLower(d.fullName), term) || Contains(d.phoneNumber, term) || Contains(ToLower(d.gothram), term)
  }

  /** The gothram test (DevoteeList.tsx:46). */
  predicate MatchesGothram(d: Devotee, filterGothram: string) {
    filterGothram == AllGothrams || d.gothram == filterGothram
  }

  function Shown(term: string, filterGothram: string): Devotee -> bool {
    (d: Devotee) => MatchesSearch(d, term) && MatchesGothram(d, filterGothram)
  }

  /** `filteredDevotees` (DevoteeList.tsx:40-49). */
  function FilteredDevotees(devotees: seq<Devotee>, searchTerm: string, filterGothram: string): (r: seq<Devotee>)
    ensures forall i :: 0 <= i < |r| ==> MatchesSearch(r[i], ToLower(searchTerm)) && MatchesGothram(r[i], filterGothram)
  {
    Filter(devotees, Shown(ToLower(searchTerm), filterGothram))
  }

  /** The filter keeps a devotee exactly when both tests pass, keeps each such devotee as often
      as it occurs, and does not reorder. */
  lemma FilteredDevoteesExact(devotees: seq<Devotee>, searchTerm: string, filterGothram: string, d: Devotee)
    ensures IsSubsequence(FilteredDevotees(devotees, searchTerm, filterGothram), devotees)
    ensures d in FilteredDevotees(devotees, searchTerm, filterGothram)
            <==> d in devotees && MatchesSearch(d, ToLower(searchTerm)) && MatchesGothram(d, filterGothram)
    ensures multiset(FilteredDevotees(devotees, searchTerm, filterGothram))[d]
            == if MatchesSearch(d, ToLower(searchTerm)) && MatchesGothram(d, filterGothram) then multiset(devotees)[d] else 0
  {
    var keep := Shown(ToLower(searchTerm), filterGothram);
    FilterIsSubsequence(devotees, keep);
    FilterMembership(devotees, keep, d);
    FilterCount(devotees, keep, d);
  }

  /** An empty search with no gothram chosen shows the whole list. */
  lemma EmptySearchShowsAll(devotees: seq<Devotee>)
    ensures FilteredDevotees(devotees, "", AllGothrams) == devotees
  {
    forall i | 0 <= i < |devotees|
      ensures Shown("", AllGothrams)(devotees[i])
    {
      ContainsEmpty(ToLower(devotees[i].fullName));
    }
    FilterKeepsAll(devotees, Shown("", AllGothrams));
  }
}
