/** Today's occasions (components/DailyReminders.tsx): which devotees have a birthday or a
    wedding anniversary today, whether the call for it is already logged, and how names and
    gothrams are shown. "Today" enters twice, as in the source: `today` is the local calendar
    day whose month and day are compared, `todayStr` the `YYYY-MM-DD` text the call log is
    keyed by (the source takes it from the UTC clock reading). */
module DailyReminders {
  import opened Wrappers
  import opened Strings
  import opened DateMath
  import opened Records
  import opened App
  import DevoteeList

  /** One card on the reminders page. */
  datatype Special = Special(devotee: Devotee, kind: OccasionType, isFinished: bool)

  /** The stored date falls on today's month and day, whatever its year; a text that is not a
      date never does. */
  predicate FallsToday(text: string, today: Date) {
    match ParseIso(text)
    case None => false
    case Some(d) => d.month == today.month && d.day == today.day
  }

  /** A birth year never matters: a stored date falls today exactly when its month and day are today's. */
  lemma FallsTodayAnyYear(d: Date, today: Date)
    requires ValidDate(d) && FourDigitYear(d)
    ensures FallsToday(FormatIso(d), today) <==> d.month == today.month && d.day == today.day
  {
    ParseFormatIso(d);
  }

  /** The cards one devotee contributes (DailyReminders.tsx:59-68). */
  function EntriesFor(d: Devotee, today: Date, todayStr: string): (r: seq<Special>)
    ensures |r| <= 2
    ensures |r| == 2 ==> r[0].kind == Birthday && r[1].kind == Anniversary
    ensures forall k :: 0 <= k < |r| ==> r[k].devotee == d
  {
    (if FallsToday(d.dateOfBirth, today)
     then [Special(d, Birthday, IsCalled(d.callHistory, todayStr, Birthday))] else [])
    + (if d.marriageDate != "" && FallsToday(d.marriageDate, today)
       then [Special(d, Anniversary, IsCalled(d.callHistory, todayStr, Anniversary))] else [])
  }

  /** The cards of a whole list, devotee after devotee. */
  function SpecialsOf(ds: seq<Devotee>, today: Date, todayStr: string): (r: seq<Special>)
    ensures |r| <= 2 * |ds|
  {
    if ds == [] then [] else EntriesFor(ds[0], today, todayStr) + SpecialsOf(ds[1..], today, todayStr)
  }

  /** The cards follow the input order of the devotees. */
  lemma {:induction false} SpecialsConcat(a: seq<Devotee>, b: seq<Devotee>, today: Date, todayStr: string)
    ensures SpecialsOf(a + b, today, todayStr) == SpecialsOf(a, today, todayStr) + SpecialsOf(b, today, todayStr)
  {
    if a == [] {
      assert a + b == b;
    } else {
      var ab, t := a + b, a[1..];
      assert ab[0] == a[0] && ab[1..] == t + b;
      SpecialsConcat(t, b, today, todayStr);
      var e := EntriesFor(a[0], today, todayStr);
      var st, sb := SpecialsOf(t, today, todayStr), SpecialsOf(b, today, todayStr);
      calc {
        SpecialsOf(ab, today, todayStr);
        e + SpecialsOf(t + b, today, todayStr);
        e + (st + sb);
        (e + st) + sb;
      }
    }
  }

  /** One more devotee adds that devotee's cards at the end. */
  lemma SpecialsSnoc(ds: seq<Devotee>, d: Devotee, today: Date, todayStr: string)
    ensures SpecialsOf(ds + [d], today, todayStr) == SpecialsOf(ds, today, todayStr) + EntriesFor(d, today, todayStr)
  {
    SpecialsConcat(ds, [d], today, todayStr);
    assert [d][1..] == [];
    assert SpecialsOf([d], today, todayStr) == EntriesFor(d, today, todayStr) + [];
  }

  /** The `forEach` callback (DailyReminders.tsx:59-68): pushes one devotee's cards. */
  method PushEntries(list: seq<Special>, d: Devotee, today: Date, todayStr: string) returns (list': seq<Special>)
    ensures list' == list + EntriesFor(d, today, todayStr)
  {
    list' := list;
    if FallsToday(d.dateOfBirth, today) {
      list' := list' + [Special(d, Birthday, IsCalled(d.callHistory, todayStr, Birthday))];
    }
    if d.marriageDate != "" {
      if FallsToday(d.marriageDate, today) {
        list' := list' + [Special(d, Anniversary, IsCalled(d.callHistory, todayStr, Anniversary))];
      }
    }
  }

  /** `specials` (DailyReminders.tsx:56-71): the `forEach` loop that pushes the cards. */
  method Specials(devotees: seq<Devotee>, today: Date, todayStr: string) returns (list: seq<Special>)
    ensures list == SpecialsOf(devotees, today, todayStr)
  {
    list := [];
    var i := 0;
    while i < |devotees|
      invariant 0 <= i <= |devotees|
      invariant list == SpecialsOf(devotees[..i], today, todayStr)
    {
      var d := devotees[i];
      list := PushEntries(list, d, today, todayStr);
      assert devotees[..i + 1] == devotees[..i] + [d];
      SpecialsSnoc(devotees[..i], d, today, todayStr);
      i := i + 1;
    }
    assert devotees[..i] == devotees;
  }

  /** Every card is for a listed devotee whose stored date falls today, and it is finished
      exactly when the log holds a record for today's date and that same occasion. */
  lemma {:induction false} SpecialsSound(ds: seq<Devotee>, today: Date, todayStr: string)
    ensures |SpecialsOf(ds, today, todayStr)| <= 2 * |ds|
    ensures forall k :: 0 <= k < |SpecialsOf(ds, today, todayStr)| ==>
              var e := SpecialsOf(ds, today, todayStr)[k];
              && e.devotee in ds
              && e.isFinished == IsCalled(e.devotee.callHistory, todayStr, e.kind)
              && (e.kind == Birthday ==> FallsToday(e.devotee.dateOfBirth, today))
              && (e.kind == Anniversary ==> e.devotee.marriageDate != "" && FallsToday(e.devotee.marriageDate, today))
  {
    if ds != [] {
      SpecialsSound(ds[1..], today, todayStr);
      var head: seq<Special> := EntriesFor(ds[0], today, todayStr);
      var tail: seq<Special> := SpecialsOf(ds[1..], today, todayStr);
      forall k | 0 <= k < |head + tail|
        ensures (head + tail)[k].devotee in ds
      {
        if k >= |head| {
          assert (head + tail)[k] == tail[k - |head|];
          assert tail[k - |head|].devotee in ds[1..];
        }
      }
    }
  }

  /** Every devotee whose birthday (or anniversary) falls today gets its card. */
  lemma {:induction false} SpecialsComplete(ds: seq<Devotee>, today: Date, todayStr: string, i: nat)
    requires i < |ds|
    ensures FallsToday(ds[i].dateOfBirth, today) ==>
              Special(ds[i], Birthday, IsCalled(ds[i].callHistory, todayStr, Birthday)) in SpecialsOf(ds, today, todayStr)
    ensures ds[i].marriageDate != "" && FallsToday(ds[i].marriageDate, today) ==>
              Special(ds[i], Anniversary, IsCalled(ds[i].callHistory, todayStr, Anniversary)) in SpecialsOf(ds, today, todayStr)
  {
    if i > 0 {
      SpecialsComplete(ds[1..], today, todayStr, i - 1);
    }
  }

  /** `after` shows the same cards as `before`, with the finished mark flipped exactly on the
      cards for devotee `id` and occasion `kind`. */
  predicate FlippedCards(before: seq<Special>, after: seq<Special>, id: string, kind: OccasionType) {
    && |after| == |before|
    && forall k :: 0 <= k < |before| ==>
         && after[k].devotee.id == before[k].devotee.id
         && after[k].kind == before[k].kind
         && after[k].isFinished == (if before[k].devotee.id == id && before[k].kind == kind
                                    then !before[k].isFinished else before[k].isFinished)
  }

  /** Card lists built piece by piece flip piece by piece. */
  lemma FlippedConcat(b1: seq<Special>, a1: seq<Special>, b2: seq<Special>, a2: seq<Special>,
                      id: string, kind: OccasionType)
    requires FlippedCards(b1, a1, id, kind) && FlippedCards(b2, a2, id, kind)
    ensures FlippedCards(b1 + b2, a1 + a2, id, kind)
  {
    forall k | 0 <= k < |b1 + b2|
      ensures (a1 + a2)[k].devotee.id == (b1 + b2)[k].devotee.id
      ensures (a1 + a2)[k].kind == (b1 + b2)[k].kind
      ensures (a1 + a2)[k].isFinished == (if (b1 + b2)[k].devotee.id == id && (b1 + b2)[k].kind == kind
                                          then !(b1 + b2)[k].isFinished else (b1 + b2)[k].isFinished)
    {
      if k >= |b1| {
        assert (a1 + a2)[k] == a2[k - |b1|] && (b1 + b2)[k] == b2[k - |b1|];
      }
    }
  }

  /** One devotee's cards before and after the toggle. */
  lemma EntriesFlip(d: Devotee, today: Date, todayStr: string, id: string, kind: OccasionType, timestamp: string)
    ensures var d' := if d.id == id then d.(callHistory := ToggleHistory(d.callHistory, todayStr, kind, timestamp)) else d;
            FlippedCards(EntriesFor(d, today, todayStr), EntriesFor(d', today, todayStr), id, kind)
  {
    if d.id == id {
      var other := if kind == Birthday then Anniversary else Birthday;
      ToggleKeepsOtherOccasions(d.callHistory, todayStr, kind, timestamp, todayStr, other);
    }
  }

  /** The Done/Reset button toggles `(devotee.id, type, todayStr)` (DailyReminders.tsx:106).
      After it, the page shows the same cards, and exactly the cards of that id and occasion
      change from finished to open or back. */
  lemma {:induction false} ToggleFlipsCards(ds: seq<Devotee>, today: Date, todayStr: string,
                                            id: string, kind: OccasionType, timestamp: string)
    ensures FlippedCards(SpecialsOf(ds, today, todayStr),
                         SpecialsOf(ToggleCallIn(ds, id, kind, todayStr, timestamp), today, todayStr), id, kind)
  {
    if ds != [] {
      var toggled := ToggleCallIn(ds, id, kind, todayStr, timestamp);
      assert toggled[1..] == ToggleCallIn(ds[1..], id, kind, todayStr, timestamp);
      ToggleFlipsCards(ds[1..], today, todayStr, id, kind, timestamp);
      EntriesFlip(ds[0], today, todayStr, id, kind, timestamp);
      FlippedConcat(EntriesFor(ds[0], today, todayStr), EntriesFor(toggled[0], today, todayStr),
                    SpecialsOf(ds[1..], today, todayStr), SpecialsOf(toggled[1..], today, todayStr), id, kind);
    }
  }

  // ---------------------------------------------------------------- display of names

  /** How the reminders page shows a name or gothram: split at the first `" / "`, or else at
      the first `" ("` dropping the first `")"` of the second part; trim both parts and show
      them as the label helper does. Other texts are shown as they are. */
  function ShownName(text: string, lang: Language): (r: string)
    ensures text == "" ==> r == ""
    ensures !Contains(text, " / ") && !Contains(text, " (") ==> r == text
    ensures Contains(text, " / ") ==>
              r == DevoteeList.GetLabel(Trim(BeforeFirst(text, " / ")),
                                        Trim(BeforeFirst(AfterFirst(text, " / "), " / ")), lang)
    ensures !Contains(text, " / ") && Contains(text, " (") ==>
              r == DevoteeList.GetLabel(Trim(BeforeFirst(text, " (")),
                                        Trim(ReplaceFirst(BeforeFirst(AfterFirst(text, " ("), " ("), ")", "")), lang)
  {
    if text == "" then ""
    else if Contains(text, " / ") then
      var parts := Split(text, " / ");
      assert |parts| >= 2 && parts[1] == Split(AfterFirst(text, " / "), " / ")[0];
      DevoteeList.GetLabel(Trim(parts[0]), Trim(parts[1]), lang)
    else if Contains(text, " (") then
      var parts := Split(text, " (");
      assert |parts| >= 2 && parts[1] == Split(AfterFirst(text, " ("), " (")[0];
      DevoteeList.GetLabel(Trim(parts[0]), Trim(ReplaceFirst(parts[1], ")", "")), lang)
    else text
  }

  /** `formatBilingual(text)` of the reminders page (DailyReminders.tsx:39-54). */
  method FormatBilingual(text: string, lang: Language) returns (r: string)
    ensures r == ShownName(text, lang)
  {
    if text == "" {
      return "";
    }
    var parts: seq<string> := [];
    if Contains(text, " / ") {
      parts := Split(text, " / ");
      assert |parts| >= 2 && parts[1] == Split(AfterFirst(text, " / "), " / ")[0];
    } else if Contains(text, " (") {
      var pieces := Split(text, " (");
      assert |pieces| >= 2 && pieces[1] == Split(AfterFirst(text, " ("), " (")[0];
      parts := [pieces[0], ReplaceFirst(pieces[1], ")", "")];
    } else {
      return text;
    }
    var en := Trim(parts[0]);
    var te := Trim(parts[1]);
    if lang == En {
      return en;
    }
    if lang == Te {
      return te;
    }
    return en + " / " + te;
  }

  /** A name stored as `"English / Telugu"` is shown the way the label helper shows its parts. */
  lemma ShownNameOfLabel(en: string, te: string, lang: Language)
    requires '/' !in en && '/' !in te && IsTrimmed(en) && IsTrimmed(te)
    ensures ShownName(DevoteeList.GetLabel(en, te, Both), lang) == DevoteeList.GetLabel(en, te, lang)
  {
    IndexOfSlashSeparator(en, te);
    SplitSlashSeparator(en, te);
    SplitNoSlash(te);
  }

  /** A gothram stored as `"English (Telugu)"`, as in the constant list, is shown the same way. */
  lemma ShownNameOfParenthesised(en: string, te: string, lang: Language)
    requires '/' !in en && '/' !in te && '(' !in en && '(' !in te && ')' !in te
    requires IsTrimmed(en) && IsTrimmed(te)
    ensures ShownName(en + " (" + te + ")", lang) == DevoteeList.GetLabel(en, te, lang)
  {
    var text := en + " (" + te + ")";
    assert text == en + " (" + (te + ")");
    NotContainsByChar(text, " / ", 1);
    SplitParenSeparator(en, te + ")");
    assert '(' !in te + ")";
    NotContainsByChar(te + ")", " (", 1);
    assert Split(text, " (") == [en, te + ")"];
    RemoveCloseParen(te, "");
    assert te + ")" + "" == te + ")" && te + "" == te;
  }
}
