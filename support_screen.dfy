/**
 * The support screen (app/mockups/SupportScreen.tsx): the FAQ filter, the
 * ticket list order (open tickets first, then newest first, the
 * `dd/mm/yyyy` dates turned into `yyyy-mm-dd` and read by `new Date`), the
 * category and FAQ toggles and the new-ticket form.
 */
module SupportScreen {
  import opened Options
  import opened Seqs
  import opened Text
  import opened Calendar

  datatype SupportCategory = SupportCategory(id: string, title: string, icon: string, description: string)
  datatype Faq = Faq(id: string, question: string, answer: string, category: string)
  datatype TicketStatus = Open | InProgress | Resolved | Closed
  datatype Response = Response(id: string, from: string, message: string, date: string, isStaff: Option<bool>)

  /** A ticket; `date` is text, written `dd/mm/yyyy` in the screen's data. */
  datatype Ticket = Ticket(
    id: string,
    subject: string,
    message: string,
    date: string,
    status: TicketStatus,
    category: Option<string>,
    responses: Option<seq<Response>>)

  /** The screen's fixed help categories. */
  const SupportCategories: seq<SupportCategory> := [
    SupportCategory("1", "Compte", "person.circle", "Problèmes de connexion, profil, mot de passe"),
    SupportCategory("2", "Application", "app.badge", "Bugs, fonctionnalités, suggestions"),
    SupportCategory("3", "Événements", "calendar", "Inscriptions, annulations, informations"),
    SupportCategory("4", "Dons", "heart.fill", "Problèmes de paiement, reçus fiscaux"),
    SupportCategory("5", "Autre", "questionmark.circle", "Toute autre demande")
  ]

  // ---------------------------------------------------------------------
  // FAQ filter

  predicate FaqMatches(f: Faq, query: string)
  {
    Contains(Lower(f.question), query) || Contains(Lower(f.answer), query)
  }

  function FaqCategoryFilter(category: string): Faq -> bool
  {
    (f: Faq) => f.category == category
  }

  function FaqSearchFilter(query: string): Faq -> bool
  {
    (f: Faq) => FaqMatches(f, query)
  }

  /** Whether a FAQ is listed for the selected category and the search query. */
  predicate KeepFaq(f: Faq, selected: Option<string>, searchQuery: string)
  {
    (Truthy(selected) ==> f.category == selected.value) &&
    (searchQuery == "" || FaqMatches(f, Lower(searchQuery)))
  }

  function KeepFaqFilter(selected: Option<string>, searchQuery: string): Faq -> bool
  {
    (f: Faq) => KeepFaq(f, selected, searchQuery)
  }

  /** `getFilteredFAQs`: by a selected category, then by a non-empty search query. */
  function GetFilteredFaqs(faqs: seq<Faq>, selected: Option<string>, searchQuery: string): seq<Faq>
  {
    var byCategory := FilterIf(faqs, Truthy(selected), FaqCategoryFilter(if selected.Some? then selected.value else ""));
    FilterIf(byCategory, searchQuery != "", FaqSearchFilter(Lower(searchQuery)))
  }

  /** The two stages are one filter by `KeepFaq`. */
  lemma FilteredFaqsIsFilter(faqs: seq<Faq>, selected: Option<string>, searchQuery: string)
    ensures GetFilteredFaqs(faqs, selected, searchQuery) == Filter(faqs, KeepFaqFilter(selected, searchQuery))
  {
    FilterIfTwice(faqs, Truthy(selected), FaqCategoryFilter(if selected.Some? then selected.value else ""),
      searchQuery != "", FaqSearchFilter(Lower(searchQuery)), KeepFaqFilter(selected, searchQuery));
  }

  /**
   * The FAQs listed are the subsequence of `faqs` (original order) of those
   * in the selected category, if any, whose lowercased question or answer
   * contains the lowercased query, if any.
   */
  lemma FilteredFaqsExact(faqs: seq<Faq>, selected: Option<string>, searchQuery: string)
    ensures IsSubsequence(GetFilteredFaqs(faqs, selected, searchQuery), faqs)
    ensures forall f :: f in GetFilteredFaqs(faqs, selected, searchQuery) <==> f in faqs && KeepFaq(f, selected, searchQuery)
    ensures forall f ::
      multiset(GetFilteredFaqs(faqs, selected, searchQuery))[f] == (if KeepFaq(f, selected, searchQuery) then multiset(faqs)[f] else 0)
  {
    FilteredFaqsIsFilter(faqs, selected, searchQuery);
    FilterMultiplicity(faqs, KeepFaqFilter(selected, searchQuery));
    FilterIsSubsequence(faqs, KeepFaqFilter(selected, searchQuery));
    FilterMembers(faqs, KeepFaqFilter(selected, searchQuery));
  }

  // ---------------------------------------------------------------------
  // Ticket dates

  /** `date.split('/').reverse().join('-')`. */
  function DateKey(date: string): string
  {
    Join(Reverse(Split(date, '/')), '-')
  }

  /** A date written `dd/mm/yyyy`, as in the ticket data. */
  function FormatDmy(d: Date): string
    requires ValidDate(d) && 0 <= d.year < 10000
  {
    Pad2(d.day) + "/" + Pad2(d.month + 1) + "/" + Pad4(d.year)
  }

  /** A date written `yyyy-mm-dd`. */
  function FormatIso(d: Date): string
    requires ValidDate(d) && 0 <= d.year < 10000
  {
    Pad4(d.year) + "-" + Pad2(d.month + 1) + "-" + Pad2(d.day)
  }

  /** The key turns `dd/mm/yyyy` into `yyyy-mm-dd`. */
  lemma DateKeyReorders(d: Date)
    requires ValidDate(d) && 0 <= d.year < 10000
    ensures DateKey(FormatDmy(d)) == FormatIso(d)
  {
    var dd, mm, yyyy := Pad2(d.day), Pad2(d.month + 1), Pad4(d.year);
    assert '/' !in dd && '/' !in mm && '/' !in yyyy by {
      assert forall c :: c in dd + mm + yyyy ==> IsDigit(c);
    }
    JoinThree(dd, mm, yyyy, '/');
    assert dd + ['/'] + mm + ['/'] + yyyy == FormatDmy(d);
    SplitJoin([dd, mm, yyyy], '/');
    assert Reverse([dd, mm, yyyy]) == [yyyy, mm, dd];
    JoinThree(yyyy, mm, dd, '-');
    assert yyyy + ['-'] + mm + ['-'] + dd == FormatIso(d);
  }

  lemma JoinThree(a: string, b: string, c: string, sep: char)
    ensures Join([a, b, c], sep) == a + [sep] + b + [sep] + c
  {
    var parts := [a, b, c];
    assert parts[1..] == [b, c] && parts[1..][1..] == [c];
    assert Join([c], sep) == c;
    assert Join([b, c], sep) == b + [sep] + c;
    assert Join(parts, sep) == a + [sep] + (b + [sep] + c);
    assert a + [sep] + (b + [sep] + c) == a + [sep] + b + [sep] + c;
  }

  /**
   * `new Date(key)` for the date-only form `YYYY-MM-DD` of section 21.4.1.32
   * of ECMA-262: four, two and two digits, a month 01-12 and a day within
   * that month; anything else is an invalid date (`None`).
   */
  function ParseIsoDate(key: string): (r: Option<Date>)
    ensures r.Some? ==> ValidDate(r.value) && 0 <= r.value.year < 10000
  {
    if |key| == 10 && key[4] == '-' && key[7] == '-' &&
       AllDigits(key[0..4]) && AllDigits(key[5..7]) && AllDigits(key[8..10]) then
      var year, month, day := DigitsValue(key[0..4]), DigitsValue(key[5..7]), DigitsValue(key[8..10]);
      if 1 <= month <= 12 && 1 <= day <= DaysInMonth(year, month - 1) then Some(Date(year, month - 1, day))
      else None
    else None
  }

  /** Reading back a written date gives the date. */
  lemma ParseFormatIso(d: Date)
    requires ValidDate(d) && 0 <= d.year < 10000
    ensures ParseIsoDate(FormatIso(d)) == Some(d)
  {
    var yyyy, mm, dd := Pad4(d.year), Pad2(d.month + 1), Pad2(d.day);
    var k := FormatIso(d);
    assert k == yyyy + ['-'] + mm + ['-'] + dd;
    assert k[0..4] == yyyy;
    assert k[5..7] == mm;
    assert k[8..10] == dd;
  }

  /** Day number of 1 January 1970, the origin of `getTime()`. */
  const UnixEpochDay: int := 719162

  lemma UnixEpoch()
    ensures DayNumber(Date(1970, 0, 1)) == UnixEpochDay
  {
  }

  /** `getTime()` of a date at midnight UTC, in milliseconds. */
  function TimeValue(d: Date): int
  {
    (DayNumber(d) - UnixEpochDay) * 86400000
  }

  /** `getTime()` orders valid dates by year, then month, then day. */
  lemma TimeValueOrder(a: Date, b: Date)
    requires ValidDate(a) && ValidDate(b)
    ensures TimeValue(a) <= TimeValue(b) <==> LexLe(a, b)
    ensures TimeValue(a) == TimeValue(b) <==> a == b
  {
    DayNumberOrder(a, b);
  }

  /** `new Date(t.date.split('/').reverse().join('-')).getTime()`, `None` for NaN. */
  function TicketTime(t: Ticket): Option<int>
  {
    match ParseIsoDate(DateKey(t.date))
    case Some(d) => Some(TimeValue(d))
    case None => None
  }

  /** A ticket dated `dd/mm/yyyy` sorts by the time of that date. */
  lemma TicketTimeOfDmy(t: Ticket, d: Date)
    requires ValidDate(d) && 0 <= d.year < 10000 && t.date == FormatDmy(d)
    ensures TicketTime(t) == Some(TimeValue(d))
  {
    DateKeyReorders(d);
    ParseFormatIso(d);
  }

  // ---------------------------------------------------------------------
  // Ticket order

  /** The comparator of `getFilteredTickets`; `None` is the NaN of a date that does not parse. */
  function TicketCompare(a: Ticket, b: Ticket): Option<int>
  {
    if a.status == Open && b.status != Open then Some(-1)
    else if a.status != Open && b.status == Open then Some(1)
    else
      match (TicketTime(b), TicketTime(a))
      case (Some(tb), Some(ta)) => Some(tb - ta)
      case _ => None
  }

  /** The sort may leave `a` before `b`: the comparator is <= 0, NaN counting as 0 (section 23.1.3.30.2 of ECMA-262). */
  predicate TicketNotAfter(a: Ticket, b: Ticket)
  {
    match TicketCompare(a, b)
    case Some(v) => v <= 0
    case None => true
  }

  /** `getFilteredTickets`: a sorted copy of the tickets. */
  function GetFilteredTickets(tickets: seq<Ticket>): (r: seq<Ticket>)
    ensures multiset(r) == multiset(tickets)
  {
    SortBy(tickets, TicketNotAfter)
  }

  lemma TicketOrderTotal(tickets: seq<Ticket>)
    requires forall i :: 0 <= i < |tickets| ==> TicketTime(tickets[i]).Some?
    ensures TotalPreorderOn(TicketNotAfter, tickets)
  {
    forall a, b, c | a in tickets && b in tickets && c in tickets && TicketNotAfter(a, b) && TicketNotAfter(b, c)
      ensures TicketNotAfter(a, c)
    {
      TicketNotAfterTransitive(a, b, c);
    }
    forall a, b | a in tickets && b in tickets ensures TicketNotAfter(a, b) || TicketNotAfter(b, a) {
      TicketNotAfterTotal(a, b);
    }
  }

  lemma TicketNotAfterTransitive(a: Ticket, b: Ticket, c: Ticket)
    requires TicketTime(a).Some? && TicketTime(b).Some? && TicketTime(c).Some?
    requires TicketNotAfter(a, b) && TicketNotAfter(b, c)
    ensures TicketNotAfter(a, c)
  {
    TicketNotAfterKeys(a, b);
    TicketNotAfterKeys(b, c);
    TicketNotAfterKeys(a, c);
  }

  /** With both dates parsed, the comparator reads the open status first and then the time. */
  lemma TicketNotAfterKeys(a: Ticket, b: Ticket)
    requires TicketTime(a).Some? && TicketTime(b).Some?
    ensures TicketNotAfter(a, b) <==>
      var (aOpen, bOpen) := (a.status == Open, b.status == Open);
      (aOpen && !bOpen) || (aOpen == bOpen && TicketTime(b).value <= TicketTime(a).value)
  {
  }

  lemma TicketNotAfterTotal(a: Ticket, b: Ticket)
    requires TicketTime(a).Some? && TicketTime(b).Some?
    ensures TicketNotAfter(a, b) || TicketNotAfter(b, a)
  {
  }

  /**
   * When every ticket date parses, the list is a permutation of the tickets
   * with every open ticket before every other one and, within each group,
   * dates newest first; tickets of the same group and date keep their order.
   */
  lemma FilteredTicketsOrder(tickets: seq<Ticket>)
    requires forall i :: 0 <= i < |tickets| ==> TicketTime(tickets[i]).Some?
    ensures multiset(GetFilteredTickets(tickets)) == multiset(tickets)
    ensures var r := GetFilteredTickets(tickets);
      forall i, j :: 0 <= i < j < |r| && r[j].status == Open ==> r[i].status == Open
    ensures var r := GetFilteredTickets(tickets);
      forall i, j :: 0 <= i < j < |r| && (r[i].status == Open <==> r[j].status == Open) ==>
        TicketTime(r[i]).Some? && TicketTime(r[j]).Some? && TicketTime(r[j]).value <= TicketTime(r[i]).value
    ensures forall t :: t in tickets ==>
      Filter(GetFilteredTickets(tickets), Ties(TicketNotAfter, t)) == Filter(tickets, Ties(TicketNotAfter, t))
  {
    TicketOrderTotal(tickets);
    SortBySorted(tickets, TicketNotAfter);
    forall t | t in tickets
      ensures Filter(GetFilteredTickets(tickets), Ties(TicketNotAfter, t)) == Filter(tickets, Ties(TicketNotAfter, t))
    {
      SortByStable(tickets, TicketNotAfter, t);
    }
    var r := GetFilteredTickets(tickets);
    forall i | 0 <= i < |r| ensures TicketTime(r[i]).Some? {
      assert r[i] in multiset(tickets);
    }
    SortedTickets(r);
  }

  /** What a list sorted by the comparator looks like when every date parses. */
  lemma SortedTickets(r: seq<Ticket>)
    requires SortedBy(TicketNotAfter, r)
    requires forall i :: 0 <= i < |r| ==> TicketTime(r[i]).Some?
    ensures forall i, j :: 0 <= i < j < |r| && r[j].status == Open ==> r[i].status == Open
    ensures forall i, j :: 0 <= i < j < |r| && (r[i].status == Open <==> r[j].status == Open) ==>
      TicketTime(r[j]).value <= TicketTime(r[i]).value
  {
    forall i, j | 0 <= i < j < |r|
      ensures r[j].status == Open ==> r[i].status == Open
      ensures (r[i].status == Open <==> r[j].status == Open) ==> TicketTime(r[j]).value <= TicketTime(r[i]).value
    {
      assert TicketNotAfter(r[i], r[j]);
    }
  }

  // ---------------------------------------------------------------------
  // Component state

  /** `prev === x ? null : x`: select `x`, or clear it if it was selected. */
  function ToggleSelection(prev: Option<string>, x: string): (r: Option<string>)
    ensures r == Some(x) <==> prev != Some(x)
    ensures r != Some(x) ==> r == None
  {
    if prev == Some(x) then None else Some(x)
  }

  /** Pressing the same entry twice from "nothing" or from that entry comes back to it. */
  lemma ToggleSelectionTwice(prev: Option<string>, x: string)
    requires prev == None || prev == Some(x)
    ensures ToggleSelection(ToggleSelection(prev, x), x) == prev
  {
  }

  /** `supportCategories.find(cat => cat.id === id)`. */
  function FindSupportCategory(categories: seq<SupportCategory>, id: string): (r: Option<SupportCategory>)
    ensures r.None? <==> forall i :: 0 <= i < |categories| ==> categories[i].id != id
    ensures r.Some? ==> r.value in categories && r.value.id == id
    decreases |categories|
  {
    if categories == [] then None
    else if categories[0].id == id then Some(categories[0])
    else FindSupportCategory(categories[1..], id)
  }

  /** The new-ticket form may be sent: trimmed subject and message non-empty and a category chosen. */
  predicate CanSubmit(subject: string, message: string, category: string)
  {
    Trim(subject) != "" && Trim(message) != "" && category != ""
  }

  /** The send button is disabled exactly when subject or message is only whitespace or no category is chosen. */
  lemma CanSubmitIffFilled(subject: string, message: string, category: string)
    ensures CanSubmit(subject, message, category) <==> !IsBlank(subject) && !IsBlank(message) && category != ""
  {
    TrimEmptyIffBlank(subject);
    TrimEmptyIffBlank(message);
  }

  class SupportState {
    var searchQuery: string
    var selectedCategory: Option<string>
    var expandedFaq: Option<string>
    var newTicketMode: bool
    var newTicketSubject: string
    var newTicketMessage: string
    var newTicketCategory: string

    constructor ()
      ensures searchQuery == "" && selectedCategory == None && expandedFaq == None
      ensures !newTicketMode && newTicketSubject == "" && newTicketMessage == "" && newTicketCategory == ""
    {
      searchQuery := "";
      selectedCategory := None;
      expandedFaq := None;
      newTicketMode := false;
      newTicketSubject := "";
      newTicketMessage := "";
      newTicketCategory := "";
    }

    /** `handleCategoryPress`: toggles the pressed category's title; an unknown id changes nothing. */
    method HandleCategoryPress(categoryId: string)
      modifies this
      ensures match FindSupportCategory(SupportCategories, categoryId)
        case None => selectedCategory == old(selectedCategory)
        case Some(c) => selectedCategory == ToggleSelection(old(selectedCategory), c.title)
      ensures searchQuery == old(searchQuery) && expandedFaq == old(expandedFaq)
      ensures newTicketMode == old(newTicketMode) && newTicketSubject == old(newTicketSubject)
      ensures newTicketMessage == old(newTicketMessage) && newTicketCategory == old(newTicketCategory)
    {
      var category := FindSupportCategory(SupportCategories, categoryId);
      if category.Some? {
        selectedCategory := if selectedCategory == Some(category.value.title) then None else Some(category.value.title);
      }
    }

    /** `handleFAQPress`: expands the pressed FAQ, or collapses it if it was the expanded one. */
    method HandleFaqPress(faqId: string)
      modifies this
      ensures expandedFaq == ToggleSelection(old(expandedFaq), faqId)
      ensures searchQuery == old(searchQuery) && selectedCategory == old(selectedCategory)
      ensures newTicketMode == old(newTicketMode) && newTicketSubject == old(newTicketSubject)
      ensures newTicketMessage == old(newTicketMessage) && newTicketCategory == old(newTicketCategory)
    {
      expandedFaq := if expandedFaq == Some(faqId) then None else Some(faqId);
    }

    /**
     * `handleCreateTicket`: with a blank subject or message or no category
     * nothing changes; otherwise the form closes and its three fields are
     * cleared.
     */
    method HandleCreateTicket()
      modifies this
      ensures !CanSubmit(old(newTicketSubject), old(newTicketMessage), old(newTicketCategory)) ==>
        && newTicketMode == old(newTicketMode) && newTicketSubject == old(newTicketSubject)
        && newTicketMessage == old(newTicketMessage) && newTicketCategory == old(newTicketCategory)
      ensures CanSubmit(old(newTicketSubject), old(newTicketMessage), old(newTicketCategory)) ==>
        !newTicketMode && newTicketSubject == "" && newTicketMessage == "" && newTicketCategory == ""
      ensures searchQuery == old(searchQuery) && selectedCategory == old(selectedCategory) && expandedFaq == old(expandedFaq)
    {
      if Trim(newTicketSubject) == "" || Trim(newTicketMessage) == "" || newTicketCategory == "" {
        return;
      }
      newTicketMode := false;
      newTicketSubject := "";
      newTicketMessage := "";
      newTicketCategory := "";
    }
  }
}
