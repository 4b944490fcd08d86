/**
 * The administrator's operations on the catalog and the purchase log: adding
 * a ticket, editing a ticket's price, deleting a ticket, and the two reports.
 * What the admin types at each prompt is a parameter; the printed menus and
 * messages are replaced by the outcome each operation returns.
 */
module Admin {
  import opened Wrappers
  import opened Text
  import opened Numbers
  import opened TicketClasses
  import opened TicketCatalog
  import opened FileHandler
  import opened PurchaseRecords

  /** Why a price typed by the admin is turned down. */
  datatype PriceError = NotAPrice | NegativePrice

  /** float(text), refused when float() raises and when the value is below zero. */
  function CheckPrice(text: string): (r: Result<real, PriceError>)
    ensures r.Ok? <==> ParseFloat(text).Some? && ParseFloat(text).value >= 0.0
    ensures r.Ok? ==> r.value == ParseFloat(text).value
    ensures r == Err(NotAPrice) <==> ParseFloat(text).None?
  {
    match ParseFloat(text)
    case None => Err(NotAPrice)
    case Some(v) => if v < 0.0 then Err(NegativePrice) else Ok(v)
  }

  /** int(pounds * 100) for a price that is not negative: the pence, rounded down. */
  function ToPence(pounds: real): (pence: nat)
    requires pounds >= 0.0
  {
    (pounds * 100.0).Floor
  }

  /** Storing a price in whole pence loses less than one penny, and never adds to it. */
  lemma PenceRoundsDown(pounds: real)
    requires pounds >= 0.0
    ensures ToPence(pounds) as real / 100.0 <= pounds < ToPence(pounds) as real / 100.0 + 0.01
  {
  }

  /** 'new-' + name.lower().replace(' ', '-'). */
  function NewId(name: string): string {
    "new-" + ReplaceChar(Lower(name), ' ', '-')
  }

  /** The id made from a name is "new-", then the name in lower case with its spaces turned into hyphens. */
  lemma NewIdShape(name: string)
    ensures |NewId(name)| == 4 + |name| && NewId(name)[..4] == "new-"
    ensures forall k :: 0 <= k < |name| ==>
      NewId(name)[4 + k] == (if LowerChar(name[k]) == ' ' then '-' else LowerChar(name[k]))
  {
  }

  /** The row add_new_ticket hands to the Ticket constructor. */
  function NewTicketRow(name: string, ticketType: string, description: string, passengerClass: string, pence: nat): Row {
    map[
      "category_title" := name,
      "category_id" := NewId(name),
      "category_description" := "Tickets for " + name,
      "topup_title" := ticketType,
      "topup_id" := NewId(ticketType),
      "topup_description" := (if description == "" then ticketType + " ticket" else description),
      "topup_price_in_pence" := NatToString(pence),
      "topup_entitlement_type" := "fixed",
      "topup_entitlement_unit" := "journey",
      "topup_entitlement_value" := "1",
      "topup_passenger_class_name" := passengerClass]
  }

  /** The fields of the ticket add_new_ticket makes: one fixed journey, no quantity and no dates. */
  function NewFields(name: string, ticketType: string, description: string, passengerClass: string): Fields {
    Fields(name, NewId(name), "Tickets for " + name, ticketType, NewId(ticketType),
      (if description == "" then ticketType + " ticket" else description),
      "fixed", "journey", "1", "N/A", "N/A", "N/A", passengerClass)
  }

  /**
   * The Ticket constructor reads that row back into those fields, with the
   * price the whole pence stand for.
   */
  lemma NewTicketFields(name: string, ticketType: string, description: string, passengerClass: string, pence: nat)
    ensures FieldsOf(NewTicketRow(name, ticketType, description, passengerClass, pence)) ==
      NewFields(name, ticketType, description, passengerClass)
  {
  }

  lemma NewTicketPrice(name: string, ticketType: string, description: string, passengerClass: string, pence: nat)
    ensures PriceOf(NewTicketRow(name, ticketType, description, passengerClass, pence)) == pence as real / 100.0
  {
    PenceColumnGivesPounds(NewTicketRow(name, ticketType, description, passengerClass, pence), pence);
  }

  /** Ticket(new_ticket_data) for the row add_new_ticket builds. */
  method MakeTicket(name: string, ticketType: string, description: string, passengerClass: string, pence: nat)
      returns (ticket: Ticket)
    ensures fresh(ticket)
    ensures ticket.fields == NewFields(name, ticketType, description, passengerClass)
    ensures ticket.price == pence as real / 100.0
  {
    var row := NewTicketRow(name, ticketType, description, passengerClass, pence);
    NewTicketFields(name, ticketType, description, passengerClass, pence);
    NewTicketPrice(name, ticketType, description, passengerClass, pence);
    ticket := new Ticket(row);
  }

  /**
   * The last step of add_new_ticket: the ticket goes at the end of the
   * category filed under name, which is first created and filed last when
   * the catalog has none.
   */
  method FileTicket(catalog: Catalog, name: string, ticket: Ticket)
    requires catalog.Valid()
    requires forall i :: 0 <= i < |catalog.entries| ==> ticket !in catalog.entries[i].1.tickets
    modifies catalog, catalog.Categories()
    ensures catalog.Valid()
    ensures old(catalog.Consistent()) && ticket.fields.category == name ==> catalog.Consistent()
    ensures match IndexOfKey(old(catalog.entries), name)
      case Some(i) =>
        catalog.entries == old(catalog.entries) && catalog.Shelves() == WithTicket(old(catalog.Shelves()), i, ticket)
      case None =>
        |catalog.entries| == |old(catalog.entries)| + 1 && catalog.entries[..|old(catalog.entries)|] == old(catalog.entries) &&
        fresh(catalog.entries[|old(catalog.entries)|].1) && catalog.entries[|old(catalog.entries)|].1.name == name &&
        catalog.Shelves() == WithShelf(old(catalog.Shelves()), name, catalog.entries[|old(catalog.entries)|].1, ticket)
    ensures TotalTickets(catalog.Shelves()) == TotalTickets(old(catalog.Shelves())) + 1
  {
    ghost var before := catalog.Shelves();
    var found := IndexOfKey(catalog.entries, name);
    match found {
      case Some(i) =>
        AddToShelf(catalog, i, ticket);
        WithTicketValid(before, i, ticket);
        if ShelvesConsistent(before) && ticket.fields.category == name {
          WithTicketConsistent(before, i, ticket);
        }
        WithTicketTotal(before, i, ticket);
      case None =>
        var category := AddShelf(catalog, name, ticket);
        WithShelfValid(before, name, category, ticket);
        if ShelvesConsistent(before) && ticket.fields.category == name {
          WithShelfConsistent(before, name, category, ticket);
        }
        WithShelfTotal(before, name, category, ticket);
    }
  }

  /** categories[name].add_ticket(ticket) for the category at position i. */
  method AddToShelf(catalog: Catalog, i: nat, ticket: Ticket)
    requires catalog.Valid() && i < |catalog.entries|
    modifies catalog.entries[i].1
    ensures catalog.entries == old(catalog.entries)
    ensures catalog.Shelves() == WithTicket(old(catalog.Shelves()), i, ticket)
  {
    ghost var before := catalog.Shelves();
    var category := catalog.entries[i].1;
    category.AddTicket(ticket);
    ghost var after := WithTicket(before, i, ticket);
    forall k | 0 <= k < |after|
      ensures catalog.Shelves()[k] == after[k]
    {
      if k != i {
        assert before[k].category != category;
      }
    }
  }

  /** categories[name] = Category(name), then add_ticket(ticket) on it: a new last entry. */
  method AddShelf(catalog: Catalog, name: string, ticket: Ticket) returns (category: Category)
    modifies catalog
    ensures fresh(category) && category.name == name
    ensures catalog.entries == old(catalog.entries) + [(name, category)]
    ensures catalog.Shelves() == WithShelf(old(catalog.Shelves()), name, category, ticket)
  {
    ghost var before := catalog.Shelves();
    category := new Category(name);
    category.AddTicket(ticket);
    catalog.entries := catalog.entries + [(name, category)];
    ghost var after := WithShelf(before, name, category, ticket);
    forall k | 0 <= k < |after|
      ensures catalog.Shelves()[k] == after[k]
    {
      if k < |before| {
        assert catalog.entries[k] == old(catalog.entries)[k];
      }
    }
  }

  /**
   * The part of add_new_ticket after every answer has been accepted: the
   * ticket is made from its row and filed under the category name.
   */
  method AddValidTicket(catalog: Catalog, name: string, ticketType: string, pence: nat,
      description: string, passengerClass: string) returns (ticket: Ticket)
    requires catalog.Valid()
    modifies catalog, catalog.Categories()
    ensures fresh(ticket)
    ensures ticket.fields == NewFields(name, ticketType, description, passengerClass)
    ensures ticket.price == pence as real / 100.0
    ensures catalog.Valid()
    ensures old(catalog.Consistent()) ==> catalog.Consistent()
    ensures match IndexOfKey(old(catalog.entries), name)
      case Some(i) =>
        catalog.entries == old(catalog.entries) && catalog.Shelves() == WithTicket(old(catalog.Shelves()), i, ticket)
      case None =>
        |catalog.entries| == |old(catalog.entries)| + 1 && catalog.entries[..|old(catalog.entries)|] == old(catalog.entries) &&
        fresh(catalog.entries[|old(catalog.entries)|].1) && catalog.entries[|old(catalog.entries)|].1.name == name &&
        catalog.Shelves() == WithShelf(old(catalog.Shelves()), name, catalog.entries[|old(catalog.entries)|].1, ticket)
    ensures TotalTickets(catalog.Shelves()) == TotalTickets(old(catalog.Shelves())) + 1
  {
    ghost var before := catalog.Shelves();
    ticket := MakeTicket(name, ticketType, description, passengerClass, pence);
    forall k | 0 <= k < |before|
      ensures catalog.Shelves()[k] == before[k]
    {
      assert catalog.entries[k] == old(catalog.entries)[k];
    }
    assert catalog.Shelves() == before;
    FileTicket(catalog, name, ticket);
  }

  datatype AddOutcome = EmptyCategoryName | EmptyTicketType | InvalidPrice(why: PriceError) | Added(ticket: Ticket)

  /**
   * add_new_ticket: every answer is stripped; an empty category name or
   * ticket type, or a price float() refuses or below zero, changes nothing.
   * Otherwise a new ticket priced at the whole pence goes at the end of the
   * category of that name, which is created at the end of the catalog first
   * when there is none.
   */
  method AddNewTicket(catalog: Catalog, nameInput: string, typeInput: string, priceInput: string,
      descriptionInput: string, classInput: string) returns (outcome: AddOutcome)
    requires catalog.Valid()
    modifies catalog, catalog.Categories()
    ensures catalog.Valid()
    ensures old(catalog.Consistent()) ==> catalog.Consistent()
    ensures outcome.EmptyCategoryName? <==> Strip(nameInput) == ""
    ensures outcome.EmptyTicketType? <==> Strip(nameInput) != "" && Strip(typeInput) == ""
    ensures outcome.InvalidPrice? <==>
      Strip(nameInput) != "" && Strip(typeInput) != "" && CheckPrice(priceInput).Err?
    ensures outcome.InvalidPrice? ==> outcome.why == CheckPrice(priceInput).error
    ensures !outcome.Added? ==> catalog.entries == old(catalog.entries) && catalog.Shelves() == old(catalog.Shelves())
    ensures outcome.Added? ==>
      var name := Strip(nameInput);
      var ticketType := Strip(typeInput);
      var pence := ToPence(CheckPrice(priceInput).value);
      var description := Strip(descriptionInput);
      var passengerClass := if Strip(classInput) == "" then "Adult" else Strip(classInput);
      fresh(outcome.ticket) &&
      outcome.ticket.fields == NewFields(name, ticketType, description, passengerClass) &&
      outcome.ticket.price == pence as real / 100.0
    ensures outcome.Added? ==>
      var name := Strip(nameInput);
      var before := old(catalog.Shelves());
      match IndexOfKey(old(catalog.entries), name)
      case Some(i) =>
        catalog.entries == old(catalog.entries) && catalog.Shelves() == WithTicket(before, i, outcome.ticket)
      case None =>
        |catalog.entries| == |before| + 1 && catalog.entries[..|before|] == old(catalog.entries) &&
        fresh(catalog.entries[|before|].1) && catalog.entries[|before|].1.name == name &&
        catalog.Shelves() == WithShelf(before, name, catalog.entries[|before|].1, outcome.ticket)
    ensures TotalTickets(catalog.Shelves()) == TotalTickets(old(catalog.Shelves())) + (if outcome.Added? then 1 else 0)
  {
    var name := Strip(nameInput);
    if name == "" {
      return EmptyCategoryName;
    }
    var ticketType := Strip(typeInput);
    if ticketType == "" {
      return EmptyTicketType;
    }
    // The answer is stripped before float(), which strips it again (ParseFloatIgnoresStrip).
    var checked := CheckPrice(priceInput);
    if checked.Err? {
      return InvalidPrice(checked.error);
    }
    var pence := ToPence(checked.value);
    var description := Strip(descriptionInput);
    var passengerClass := if Strip(classInput) == "" then "Adult" else Strip(classInput);
    var ticket := AddValidTicket(catalog, name, ticketType, pence, description, passengerClass);
    outcome := Added(ticket);
  }

  datatype EditOutcome = EditNotSelected(selectError: SelectError) | EditRefused(priceError: PriceError) | PriceChanged(category: nat, ticket: nat)

  /**
   * edit_ticket_price: the ticket chosen by category and ticket number gets
   * the new price, once float() accepts it and it is not below zero. No other
   * ticket's price and no category changes.
   */
  method EditTicketPrice(catalog: Catalog, categoryText: string, ticketText: string, priceText: string)
      returns (outcome: EditOutcome)
    modifies catalog.TicketObjects()
    ensures catalog.Shelves() == old(catalog.Shelves())
    ensures var selected := SelectTicket(TicketCounts(catalog.Shelves()), categoryText, ticketText);
      var checked := CheckPrice(priceText);
      outcome ==
        if selected.Err? then EditNotSelected(selected.error)
        else if checked.Err? then EditRefused(checked.error)
        else PriceChanged(selected.value.0, selected.value.1)
    ensures outcome.PriceChanged? ==>
      var i, j := outcome.category, outcome.ticket;
      i < |catalog.entries| && j < |catalog.entries[i].1.tickets| && CheckPrice(priceText).Ok? &&
      catalog.entries[i].1.tickets[j].price == CheckPrice(priceText).value
    ensures forall t :: t in old(catalog.TicketObjects()) ==>
      t.price == old(t.price) ||
      (outcome.PriceChanged? && outcome.category < |catalog.entries| && outcome.ticket < |catalog.entries[outcome.category].1.tickets| &&
       t == catalog.entries[outcome.category].1.tickets[outcome.ticket])
  {
    var selected := SelectTicket(catalog.Counts(), categoryText, ticketText);
    if selected.Err? {
      return EditNotSelected(selected.error);
    }
    var (i, j) := selected.value;
    var ticket := catalog.entries[i].1.tickets[j];
    // The answer is stripped before float(), which strips it again (ParseFloatIgnoresStrip).
    var checked := CheckPrice(priceText);
    if checked.Err? {
      return EditRefused(checked.error);
    }
    assert ticket in catalog.entries[i].1.tickets;
    assert ticket in catalog.TicketObjects();
    ticket.price := checked.value;
    outcome := PriceChanged(i, j);
  }

  /** list.remove(x): the first occurrence of x goes. */
  function RemoveFirst<T(==)>(s: seq<T>, x: T): (r: seq<T>)
    requires x in s
    ensures |r| == |s| - 1
  {
    if s[0] == x then s[1..] else [s[0]] + RemoveFirst(s[1..], x)
  }

  /** Among distinct elements, removing the one at j leaves those before it and those after it. */
  lemma {:induction false} RemoveFirstAt<T>(s: seq<T>, j: nat)
    requires Distinct(s) && j < |s|
    ensures RemoveFirst(s, s[j]) == s[..j] + s[j + 1..]
  {
    if j > 0 {
      var t := s[1..];
      assert s[0] != s[j];
      assert t[j - 1] == s[j];
      DistinctTail(s);
      RemoveFirstAt(t, j - 1);
      RemoveAtCons(s, j);
    }
  }

  lemma DistinctTail<T>(s: seq<T>)
    requires Distinct(s) && s != []
    ensures Distinct(s[1..])
  {
    forall a, b | 0 <= a < b < |s[1..]|
      ensures s[1..][a] != s[1..][b]
    {
      assert s[1..][a] == s[a + 1] && s[1..][b] == s[b + 1];
    }
  }

  lemma RemoveAtCons<T>(s: seq<T>, j: nat)
    requires 0 < j < |s|
    ensures [s[0]] + (s[1..][..j - 1] + s[1..][j..]) == s[..j] + s[j + 1..]
  {
    assert s[..j] == [s[0]] + s[1..][..j - 1];
    assert s[j + 1..] == s[1..][j..];
  }

  /** list.remove(x) takes one copy of x out and leaves every other element. */
  lemma {:induction false} RemoveFirstMultiset<T>(s: seq<T>, x: T)
    requires x in s
    ensures multiset(RemoveFirst(s, x)) == multiset(s) - multiset{x}
  {
    assert s == [s[0]] + s[1..];
    if s[0] != x {
      RemoveFirstMultiset(s[1..], x);
    }
  }

  /** selected_category.tickets.remove(ticket): the j-th ticket of the i-th category is removed. */
  method RemoveTicket(catalog: Catalog, i: nat, j: nat)
    requires catalog.Valid() && i < |catalog.entries| && j < |catalog.entries[i].1.tickets|
    modifies catalog.entries[i].1
    ensures catalog.entries == old(catalog.entries)
    ensures catalog.Shelves() == WithoutTicket(old(catalog.Shelves()), i, j)
  {
    ghost var before := catalog.Shelves();
    var category := catalog.entries[i].1;
    var ticket := category.tickets[j];
    RemoveFirstAt(category.tickets, j);
    category.tickets := RemoveFirst(category.tickets, ticket);
    ghost var after := WithoutTicket(before, i, j);
    forall k | 0 <= k < |after|
      ensures catalog.Shelves()[k] == after[k]
    {
      if k != i {
        assert before[k].category != category;
      }
    }
  }

  datatype DeleteOutcome = DeleteNotSelected(why: SelectError) | DeletionCancelled | Deleted(category: nat, ticket: nat)

  /**
   * delete_ticket: the ticket chosen by category and ticket number is removed
   * from its category once the answer, in lower case, is "yes" or "y". The
   * category stays in the catalog even when it becomes empty.
   */
  method DeleteTicket(catalog: Catalog, categoryText: string, ticketText: string, answer: string)
      returns (outcome: DeleteOutcome)
    requires catalog.Valid()
    modifies catalog.Categories()
    ensures catalog.entries == old(catalog.entries)
    ensures catalog.Valid()
    ensures old(catalog.Consistent()) ==> catalog.Consistent()
    ensures var selected := SelectTicket(TicketCounts(old(catalog.Shelves())), categoryText, ticketText);
      outcome ==
        if selected.Err? then DeleteNotSelected(selected.error)
        else if !IsYes(answer) then DeletionCancelled
        else Deleted(selected.value.0, selected.value.1)
    ensures outcome.Deleted? ==>
      outcome.category < |old(catalog.Shelves())| && outcome.ticket < |old(catalog.Shelves())[outcome.category].tickets| &&
      catalog.Shelves() == WithoutTicket(old(catalog.Shelves()), outcome.category, outcome.ticket)
    ensures !outcome.Deleted? ==> catalog.Shelves() == old(catalog.Shelves())
    ensures TotalTickets(catalog.Shelves()) + (if outcome.Deleted? then 1 else 0) == TotalTickets(old(catalog.Shelves()))
  {
    ghost var before := catalog.Shelves();
    var selected := SelectTicket(catalog.Counts(), categoryText, ticketText);
    if selected.Err? {
      return DeleteNotSelected(selected.error);
    }
    var (i, j) := selected.value;
    if !IsYes(answer) {
      return DeletionCancelled;
    }
    RemoveTicket(catalog, i, j);
    WithoutTicketValid(before, i, j);
    if ShelvesConsistent(before) {
      WithoutTicketConsistent(before, i, j);
    }
    WithoutTicketTotal(before, i, j);
    outcome := Deleted(i, j);
  }

  /** The admin's purchase summary: how many stored lines could be read, and the sum of their totals. */
  datatype PurchaseSummary = PurchaseSummary(count: nat, revenue: real)

  /** view_all_purchases: nothing when the log holds no lines, else the readable count and the revenue. */
  method ViewAllPurchases(ledger: Ledger, decode: Decoder) returns (summary: Option<PurchaseSummary>)
    ensures var lines := StoredRecords(ledger.text);
      summary == if lines == [] then None else Some(PurchaseSummary(ReadableCount(decode, lines), Revenue(decode, lines)))
  {
    var all := ledger.LoadPurchases();
    if all == [] {
      return None;
    }
    var revenue, count := AddUpPurchases(decode, all);
    summary := Some(PurchaseSummary(count, revenue));
  }

  /** The ticket part of the statistics: all tickets, and the tickets of each category in catalog order. */
  method CountTickets(catalog: Catalog) returns (totalTickets: nat, byCategory: seq<(string, nat)>)
    ensures totalTickets == TotalTickets(catalog.Shelves())
    ensures |byCategory| == |catalog.entries|
    ensures forall i :: 0 <= i < |catalog.entries| ==>
      byCategory[i] == (catalog.entries[i].0, |catalog.entries[i].1.tickets|)
  {
    var counts := catalog.Counts();
    totalTickets := AddUpCounts(counts);
    assert counts == TicketCounts(catalog.Shelves());
    assert totalTickets == Sum(counts);
    assert totalTickets == TotalTickets(catalog.Shelves());
    byCategory := [];
    for k := 0 to |counts|
      invariant |byCategory| == k
      invariant forall i :: 0 <= i < k ==> byCategory[i] == (catalog.entries[i].0, counts[i])
    {
      byCategory := byCategory + [(catalog.entries[k].0, counts[k])];
    }
  }

  /** The running total of the per-category ticket counts. */
  method AddUpCounts(counts: seq<nat>) returns (total: nat)
    ensures total == Sum(counts)
  {
    total := 0;
    for k := 0 to |counts|
      invariant total == Sum(counts[..k])
    {
      assert counts[..k + 1][..k] == counts[..k];
      total := total + counts[k];
    }
    assert counts[..|counts|] == counts;
  }

  /** The purchase part of the statistics: every stored line counts as a purchase, readable or not. */
  datatype PurchaseFigures = PurchaseFigures(totalPurchases: nat, revenue: real, average: Option<real>)

  datatype SystemStats = SystemStats(
    totalCategories: nat,
    totalTickets: nat,
    ticketsByCategory: seq<(string, nat)>,
    purchases: Option<PurchaseFigures>)

  /**
   * view_system_statistics: the number of categories and tickets, the tickets
   * of each category in catalog order, and, when the log holds lines, their
   * number, the revenue and the revenue per line.
   */
  method ViewSystemStatistics(catalog: Catalog, ledger: Ledger, decode: Decoder) returns (stats: SystemStats)
    ensures stats.totalCategories == |catalog.entries|
    ensures stats.totalTickets == TotalTickets(catalog.Shelves())
    ensures |stats.ticketsByCategory| == |catalog.entries|
    ensures forall i :: 0 <= i < |catalog.entries| ==>
      stats.ticketsByCategory[i] == (catalog.entries[i].0, |catalog.entries[i].1.tickets|)
    ensures var lines := StoredRecords(ledger.text);
      var revenue := Revenue(decode, lines);
      stats.purchases == if lines == [] then None else Some(PurchaseFigures(|lines|, revenue, Some(revenue / |lines| as real)))
  {
    var all := ledger.LoadPurchases();
    var purchases := None;
    if all != [] {
      var totalPurchases := |all|;
      var revenue, _ := AddUpPurchases(decode, all);
      var average := None;
      if totalPurchases > 0 {
        average := Some(revenue / totalPurchases as real);
      }
      purchases := Some(PurchaseFigures(totalPurchases, revenue, average));
    }
    var totalTickets, byCategory := CountTickets(catalog);
    stats := SystemStats(|catalog.entries|, totalTickets, byCategory, purchases);
  }
}
