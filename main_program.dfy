/**
 * The customer's operations: searching the catalog, buying a ticket, the
 * purchase history and the purchase chart. What the customer types at each
 * prompt is a parameter; the printed menus, receipts and messages are
 * replaced by the outcome each operation returns.
 */
module MainProgram {
  import opened Wrappers
  import opened Text
  import opened Numbers
  import opened TicketClasses
  import opened TicketCatalog
  import opened FileHandler
  import opened PurchaseRecords

  // ---------------------------------------------------------------------------
  // search_tickets
  // ---------------------------------------------------------------------------

  /** A ticket matches when the term occurs in its type or in its category field, both in lower case. */
  predicate Matches(term: string, f: Fields) {
    Contains(Lower(f.topupType), term) || Contains(Lower(f.category), term)
  }

  /** The matching tickets of one category, each with the category's name, in ticket order. */
  function Hits(name: string, ts: seq<Ticket>, term: string): seq<(string, Ticket)> {
    if ts == [] then []
    else Hits(name, ts[..|ts| - 1], term) + if Matches(term, ts[|ts| - 1].fields) then [(name, ts[|ts| - 1])] else []
  }

  /** The matching tickets of the whole catalog: category by category, in catalog order. */
  function Found(ss: seq<Shelf>, term: string): seq<(string, Ticket)> {
    if ss == [] then []
    else Found(ss[..|ss| - 1], term) + Hits(ss[|ss| - 1].category.name, ss[|ss| - 1].tickets, term)
  }

  lemma {:induction false} HitsMembership(name: string, ts: seq<Ticket>, term: string, n: string, t: Ticket)
    ensures (n, t) in Hits(name, ts, term) <==> n == name && t in ts && Matches(term, t.fields)
  {
    if ts != [] {
      HitsMembership(name, ts[..|ts| - 1], term, n, t);
      assert ts == ts[..|ts| - 1] + [ts[|ts| - 1]];
    }
  }

  /**
   * A result is found exactly when some category of that name holds the
   * ticket and the ticket matches the term.
   */
  lemma {:induction false} FoundMembership(ss: seq<Shelf>, term: string, n: string, t: Ticket)
    ensures (n, t) in Found(ss, term) <==>
      exists i :: 0 <= i < |ss| && n == ss[i].category.name && t in ss[i].tickets && Matches(term, t.fields)
  {
    if ss != [] {
      var last := ss[|ss| - 1];
      FoundMembership(ss[..|ss| - 1], term, n, t);
      HitsMembership(last.category.name, last.tickets, term, n, t);
      if (n, t) in Hits(last.category.name, last.tickets, term) {
        assert n == ss[|ss| - 1].category.name && t in ss[|ss| - 1].tickets;
      }
      if exists i :: 0 <= i < |ss| && n == ss[i].category.name && t in ss[i].tickets && Matches(term, t.fields) {
        var i :| 0 <= i < |ss| && n == ss[i].category.name && t in ss[i].tickets && Matches(term, t.fields);
        if i < |ss| - 1 {
          assert ss[..|ss| - 1][i] == ss[i];
        }
      }
    }
  }

  lemma DistinctConcat<T>(a: seq<T>, b: seq<T>)
    requires Distinct(a) && Distinct(b)
    requires forall x :: x in a ==> x !in b
    ensures Distinct(a + b)
  {
    forall i, j | 0 <= i < j < |a + b|
      ensures (a + b)[i] != (a + b)[j]
    {
      if i < |a| && j >= |a| {
        assert (a + b)[i] in a && (a + b)[j] == b[j - |a|];
      } else if j < |a| {
        assert (a + b)[i] == a[i] && (a + b)[j] == a[j];
      } else {
        assert (a + b)[i] == b[i - |a|] && (a + b)[j] == b[j - |a|];
      }
    }
  }

  lemma {:induction false} HitsDistinct(name: string, ts: seq<Ticket>, term: string)
    requires Distinct(ts)
    ensures Distinct(Hits(name, ts, term))
  {
    if ts != [] {
      var init := ts[..|ts| - 1];
      var last := ts[|ts| - 1];
      assert Distinct(init) by {
        forall a, b | 0 <= a < b < |init|
          ensures init[a] != init[b]
        {
          assert init[a] == ts[a] && init[b] == ts[b];
        }
      }
      HitsDistinct(name, init, term);
      HitsMembership(name, init, term, name, last);
      assert last !in init by {
        forall a | 0 <= a < |init|
          ensures init[a] != last
        {
          assert init[a] == ts[a];
        }
      }
      DistinctConcat(Hits(name, init, term), if Matches(term, last.fields) then [(name, last)] else []);
    }
  }

  /**
   * In a catalog whose categories are filed under their own distinct names
   * and hold no ticket twice, a search lists each ticket, with its category,
   * at most once.
   */
  lemma {:induction false} FoundDistinct(ss: seq<Shelf>, term: string)
    requires ShelvesValid(ss) && ShelvesConsistent(ss)
    ensures Distinct(Found(ss, term))
  {
    if ss != [] {
      var init := ss[..|ss| - 1];
      var last := ss[|ss| - 1];
      assert ShelvesValid(init) && ShelvesConsistent(init) by {
        assert forall i :: 0 <= i < |init| ==> init[i] == ss[i];
      }
      FoundDistinct(init, term);
      HitsDistinct(last.category.name, last.tickets, term);
      forall x | x in Found(init, term)
        ensures x !in Hits(last.category.name, last.tickets, term)
      {
        FoundMembership(init, term, x.0, x.1);
        var i :| 0 <= i < |init| && x.0 == init[i].category.name && x.1 in init[i].tickets && Matches(term, x.1.fields);
        assert init[i] == ss[i];
        assert x.0 == ss[i].key != last.key == last.category.name;
        HitsMembership(last.category.name, last.tickets, term, x.0, x.1);
      }
      DistinctConcat(Found(init, term), Hits(last.category.name, last.tickets, term));
    }
  }

  lemma {:induction false} HitsAtMost(name: string, ts: seq<Ticket>, term: string)
    ensures |Hits(name, ts, term)| <= |ts|
  {
    if ts != [] {
      HitsAtMost(name, ts[..|ts| - 1], term);
    }
  }

  /** A search never yields more results than there are tickets. */
  lemma {:induction false} FoundAtMostTotal(ss: seq<Shelf>, term: string)
    ensures |Found(ss, term)| <= TotalTickets(ss)
  {
    if ss != [] {
      var init := ss[..|ss| - 1];
      FoundAtMostTotal(init, term);
      HitsAtMost(ss[|ss| - 1].category.name, ss[|ss| - 1].tickets, term);
      assert ss == init + [ss[|ss| - 1]];
      assert TicketCounts(ss) == TicketCounts(init) + [|ss[|ss| - 1].tickets|];
      SumAppend(TicketCounts(init), [|ss[|ss| - 1].tickets|]);
    }
  }

  /** Every ticket matches the empty term, so an empty term would find the whole catalog. */
  lemma EveryTicketMatchesEmpty(f: Fields)
    ensures Matches("", f)
  {
    assert OccursAt(Lower(f.topupType), "", 0);
  }

  /**
   * search_tickets: the term is put in lower case but not stripped; a term
   * that is empty once stripped is refused (None). Otherwise the results are
   * every matching ticket with the name of the category it was found in.
   */
  method SearchTickets(catalog: Catalog, input: string) returns (results: Option<seq<(string, Ticket)>>)
    ensures Strip(Lower(input)) == "" ==> results == None
    ensures Strip(Lower(input)) != "" ==> results == Some(Found(catalog.Shelves(), Lower(input)))
  {
    var term := Lower(input);
    if Strip(term) == "" {
      return None;
    }
    var matching := SearchCatalog(catalog, term);
    results := Some(matching);
  }

  /** The loop over every category of the catalog. */
  method SearchCatalog(catalog: Catalog, term: string) returns (matching: seq<(string, Ticket)>)
    ensures matching == Found(catalog.Shelves(), term)
  {
    ghost var ss := catalog.Shelves();
    matching := [];
    for i := 0 to |catalog.entries|
      invariant matching == Found(ss[..i], term)
    {
      var category := catalog.entries[i].1;
      assert ss[i] == Shelf(catalog.entries[i].0, category, category.tickets);
      var hits := SearchCategory(category.name, category.tickets, term);
      assert ss[..i + 1][..i] == ss[..i];
      assert Found(ss[..i + 1], term) == Found(ss[..i], term) + hits;
      matching := matching + hits;
    }
    assert ss[..|catalog.entries|] == ss;
    assert matching == Found(ss, term);
    assert catalog.Shelves() == ss;
  }

  /** The loop over the tickets of one category. */
  method SearchCategory(name: string, tickets: seq<Ticket>, term: string) returns (hits: seq<(string, Ticket)>)
    ensures hits == Hits(name, tickets, term)
  {
    hits := [];
    for j := 0 to |tickets|
      invariant hits == Hits(name, tickets[..j], term)
    {
      assert tickets[..j + 1][..j] == tickets[..j];
      var ticket := tickets[j];
      if Matches(term, ticket.fields) {
        hits := hits + [(name, ticket)];
      }
    }
    assert tickets[..|tickets|] == tickets;
  }

  // ---------------------------------------------------------------------------
  // purchase_ticket
  // ---------------------------------------------------------------------------

  /**
   * Purchase(ticket, quantity).to_file_format(): Purchase is not part of this
   * model, so the line it writes is a parameter, a function of the ticket's
   * fields, its unit price and the quantity (the purchase time, if it writes
   * one, is folded into it).
   */
  type Encoder = (Fields, real, int) -> string

  datatype PurchaseOutcome =
    | NotSelected(why: SelectError)
    | QuantityNotANumber
    | QuantityNotPositive
    | Cancelled(total: real)
    | SaveFailed(total: real)
    | Saved(total: real, record: string)

  /**
   * What becomes of a purchase once the ticket is chosen: the quantity is
   * read with int() and must be above zero; the total is the unit price
   * times the quantity; the purchase is written only when the answer, in
   * lower case, is "yes" or "y", and the write succeeds.
   */
  function CheckoutOutcome(fields: Fields, unitPrice: real, quantity: Option<int>, answer: string,
      encode: Encoder, writeFails: bool): PurchaseOutcome
  {
    match quantity
    case None => QuantityNotANumber
    case Some(quantity) =>
      if quantity <= 0 then QuantityNotPositive
      else
        var total := unitPrice * quantity as real;
        if !IsYes(answer) then Cancelled(total)
        else if writeFails then SaveFailed(total)
        else Saved(total, encode(fields, unitPrice, quantity))
  }

  /**
   * A purchase is saved exactly when the quantity reads as a positive
   * number, the buyer confirms and the write succeeds; it is cancelled
   * exactly when a positive quantity is not confirmed, and fails exactly
   * when a confirmed write fails; every outcome past
   * the quantity carries the unit price times the quantity, and the saved
   * record is the one the encoder makes of that ticket and quantity.
   */
  lemma CheckoutOutcomeSpec(fields: Fields, unitPrice: real, quantity: Option<int>, answer: string,
      encode: Encoder, writeFails: bool)
    ensures var o := CheckoutOutcome(fields, unitPrice, quantity, answer, encode, writeFails);
      (o.Saved? <==> quantity.Some? && quantity.value > 0 && IsYes(answer) && !writeFails) &&
      (o == QuantityNotANumber <==> quantity.None?) &&
      (o == QuantityNotPositive <==> quantity.Some? && quantity.value <= 0) &&
      (o.Cancelled? <==> quantity.Some? && quantity.value > 0 && !IsYes(answer)) &&
      (o.SaveFailed? <==> quantity.Some? && quantity.value > 0 && IsYes(answer) && writeFails) &&
      (o.Cancelled? || o.SaveFailed? || o.Saved? ==> o.total == unitPrice * quantity.value as real) &&
      (o.Saved? ==> o.record == encode(fields, unitPrice, quantity.value))
  {
  }

  /**
   * purchase_ticket: a category number and a ticket number as the menus
   * share them, then the checkout of the ticket chosen. The log grows by the
   * record and a newline when the purchase is saved, and is unchanged
   * otherwise; the catalog is never changed.
   */
  method PurchaseTicket(catalog: Catalog, ledger: Ledger, categoryText: string, ticketText: string,
      quantityText: string, answer: string, encode: Encoder, writeFails: bool) returns (outcome: PurchaseOutcome)
    modifies ledger
    ensures var selected := SelectTicket(TicketCounts(catalog.Shelves()), categoryText, ticketText);
      if selected.Err? then outcome == NotSelected(selected.error)
      else
        var ticket := catalog.entries[selected.value.0].1.tickets[selected.value.1];
        outcome == CheckoutOutcome(ticket.fields, ticket.price, ParseInt(quantityText), answer, encode, writeFails)
    ensures ledger.text == if outcome.Saved? then old(ledger.text) + outcome.record + "\n" else old(ledger.text)
  {
    var choice := PickTicket(catalog, categoryText, ticketText);
    if choice.Err? {
      return NotSelected(choice.error);
    }
    var ticket := choice.value;
    var quantity := ParseInt(quantityText);
    outcome := Checkout(ledger, ticket.fields, ticket.GetPrice(), quantity, answer, encode, writeFails);
  }

  /** The category and ticket menus: the ticket chosen, or why the choice is turned down. */
  method PickTicket(catalog: Catalog, categoryText: string, ticketText: string) returns (choice: Result<Ticket, SelectError>)
    ensures var selected := SelectTicket(TicketCounts(catalog.Shelves()), categoryText, ticketText);
      if selected.Err? then choice == Err(selected.error)
      else choice == Ok(catalog.entries[selected.value.0].1.tickets[selected.value.1])
  {
    var selected := SelectTicket(catalog.Counts(), categoryText, ticketText);
    if selected.Err? {
      return Err(selected.error);
    }
    var (i, j) := selected.value;
    choice := Ok(catalog.entries[i].1.tickets[j]);
  }

  /** The quantity, the total, the confirmation and the write, for a ticket already chosen. */
  method Checkout(ledger: Ledger, fields: Fields, unitPrice: real, quantity: Option<int>, answer: string,
      encode: Encoder, writeFails: bool) returns (outcome: PurchaseOutcome)
    modifies ledger
    ensures outcome == CheckoutOutcome(fields, unitPrice, quantity, answer, encode, writeFails)
    ensures ledger.text == if outcome.Saved? then old(ledger.text) + outcome.record + "\n" else old(ledger.text)
  {
    if quantity.None? {
      return QuantityNotANumber;
    }
    var q := quantity.value;
    if q <= 0 {
      return QuantityNotPositive;
    }
    var total := unitPrice * q as real;
    var confirmed := IsYes(answer);
    if !confirmed {
      return Cancelled(total);
    }
    var record := encode(fields, unitPrice, q);
    outcome := SaveRecord(ledger, total, record, writeFails);
  }

  /** save_purchase and what the buyer is told of it. */
  method SaveRecord(ledger: Ledger, total: real, record: string, writeFails: bool) returns (outcome: PurchaseOutcome)
    modifies ledger
    ensures outcome == if writeFails then SaveFailed(total) else Saved(total, record)
    ensures ledger.text == if writeFails then old(ledger.text) else old(ledger.text) + record + "\n"
  {
    var saved := ledger.SavePurchase(record, writeFails);
    if saved {
      outcome := Saved(total, record);
    } else {
      outcome := SaveFailed(total);
    }
  }

  /**
   * A purchase saved to a log written only by save_purchase, with a record
   * that holds no line break, reads back as one more record, and adds that
   * record's total to what the history reports as spent: SaveThenLoad and
   * SaveAddsToRevenue, put together for the record purchase_ticket saves.
   */
  lemma PurchaseIsReadBack(decode: Decoder, before: string, record: string)
    requires Terminated(before) && NoBreak(record)
    ensures StoredRecords(before + record + "\n") == StoredRecords(before) + [Strip(record)]
    ensures Revenue(decode, StoredRecords(before + record + "\n")) ==
      Revenue(decode, StoredRecords(before)) + match LineTotal(decode, Strip(record)) case Some(v) => v case None => 0.0
  {
    SaveThenLoad(before, record);
    SaveAddsToRevenue(decode, before, record);
  }

  // ---------------------------------------------------------------------------
  // view_my_purchases
  // ---------------------------------------------------------------------------

  /** view_my_purchases: nothing when the log holds no lines, else the total spent over the readable lines. */
  method ViewMyPurchases(ledger: Ledger, decode: Decoder) returns (spent: Option<real>)
    ensures var lines := StoredRecords(ledger.text);
      spent == if lines == [] then None else Some(Revenue(decode, lines))
  {
    var all := ledger.LoadPurchases();
    if all == [] {
      return None;
    }
    var total, _ := AddUpPurchases(decode, all);
    spent := Some(total);
  }

  // ---------------------------------------------------------------------------
  // view_purchase_stats
  // ---------------------------------------------------------------------------

  /** A Counter as it stands: each category with its count, in the order the categories were first seen. */
  type Tally = seq<(string, nat)>

  function Keys(t: Tally): (ks: seq<string>)
    ensures |ks| == |t| && forall i :: 0 <= i < |t| ==> ks[i] == t[i].0
  {
    if t == [] then [] else [t[0].0] + Keys(t[1..])
  }

  /** counter[name], which is 0 for a name never counted. */
  function CountOf(t: Tally, name: string): nat {
    if t == [] then 0 else if t[0].0 == name then t[0].1 else CountOf(t[1..], name)
  }

  /** counter[name] += 1: the name's count goes up by one; a new name is added last with count 1. */
  function Bump(t: Tally, name: string): Tally {
    if t == [] then [(name, 1)]
    else if t[0].0 == name then [(name, t[0].1 + 1)] + t[1..]
    else [t[0]] + Bump(t[1..], name)
  }

  /** The Counter after counting every name in turn. */
  function TallyOf(names: seq<string>): Tally {
    if names == [] then [] else Bump(TallyOf(names[..|names| - 1]), names[|names| - 1])
  }

  /** How many times name occurs in names. */
  function Occurrences(names: seq<string>, name: string): nat {
    if names == [] then 0
    else Occurrences(names[..|names| - 1], name) + if names[|names| - 1] == name then 1 else 0
  }

  /** The position where name first occurs in names, or |names| when it never does. */
  function FirstIndex(names: seq<string>, name: string): (r: nat)
    ensures r <= |names|
    ensures r < |names| ==> names[r] == name
    ensures forall k :: 0 <= k < r ==> names[k] != name
  {
    if names == [] then 0
    else if names[0] == name then 0
    else 1 + FirstIndex(names[1..], name)
  }

  /** One more name at the end leaves the first occurrence of every earlier name where it was. */
  lemma FirstIndexAppend(names: seq<string>, x: string, n: string)
    ensures FirstIndex(names + [x], n) == if n in names then FirstIndex(names, n) else if n == x then |names| else |names| + 1
  {
    assert forall k :: 0 <= k < |names| ==> (names + [x])[k] == names[k];
    assert (names + [x])[|names|] == x;
    if n in names {
      assert (names + [x])[FirstIndex(names, n)] == n;
    }
  }

  /** sum(counter.values()). */
  function TotalCount(t: Tally): nat {
    if t == [] then 0 else t[0].1 + TotalCount(t[1..])
  }

  /** What a Counter keeps: every name once, each with a count of at least one. */
  predicate TallyValid(t: Tally) {
    Distinct(Keys(t)) && forall i :: 0 <= i < |t| ==> t[i].1 >= 1
  }

  /**
   * counter[name] += 1 on a Counter: it stays a Counter, only name's count
   * goes up, by one, and the keys stay in place with a new name added last.
   */
  lemma BumpEffect(t: Tally, name: string)
    requires TallyValid(t)
    ensures TallyValid(Bump(t, name))
    ensures forall n :: CountOf(Bump(t, name), n) == CountOf(t, n) + if n == name then 1 else 0
    ensures forall n :: n in Keys(Bump(t, name)) <==> n in Keys(t) || n == name
    ensures TotalCount(Bump(t, name)) == TotalCount(t) + 1
    ensures Keys(Bump(t, name)) == if name in Keys(t) then Keys(t) else Keys(t) + [name]
  {
    BumpCounts(t, name);
    BumpKeys(t, name);
  }

  /** The counting part of BumpEffect. */
  lemma {:induction false} BumpCounts(t: Tally, name: string)
    requires TallyValid(t)
    ensures TallyValid(Bump(t, name))
    ensures forall n :: CountOf(Bump(t, name), n) == CountOf(t, n) + if n == name then 1 else 0
    ensures forall n :: n in Keys(Bump(t, name)) <==> n in Keys(t) || n == name
    ensures TotalCount(Bump(t, name)) == TotalCount(t) + 1
  {
    if t != [] && t[0].0 != name {
      var rest := t[1..];
      assert TallyValid(rest) by {
        forall a, b | 0 <= a < b < |rest|
          ensures Keys(rest)[a] != Keys(rest)[b]
        {
          assert Keys(t)[a + 1] != Keys(t)[b + 1];
        }
      }
      BumpCounts(rest, name);
      var r := Bump(t, name);
      assert r == [t[0]] + Bump(rest, name);
      assert Keys(r) == [t[0].0] + Keys(Bump(rest, name));
      assert t[0].0 !in Keys(rest) by {
        forall b | 0 <= b < |rest|
          ensures Keys(rest)[b] != t[0].0
        {
          assert Keys(t)[0] != Keys(t)[b + 1];
        }
      }
      assert Distinct(Keys(r)) by {
        forall a, b | 0 <= a < b < |r|
          ensures Keys(r)[a] != Keys(r)[b]
        {
          if a == 0 {
            assert Keys(r)[b] in Keys(Bump(rest, name));
          } else {
            assert Keys(r)[a] == Keys(Bump(rest, name))[a - 1];
          }
        }
      }
      assert Keys(t) == [t[0].0] + Keys(rest);
    } else if t != [] {
      var r := Bump(t, name);
      assert Keys(r) == [name] + Keys(t[1..]);
      assert Keys(t) == [name] + Keys(t[1..]);
      assert forall n :: n != name ==> CountOf(r, n) == CountOf(t[1..], n) == CountOf(t, n);
    }
  }

  /** Counting a name keeps the keys in place, and a new name goes last. */
  lemma {:induction false} BumpKeys(t: Tally, name: string)
    ensures Keys(Bump(t, name)) == if name in Keys(t) then Keys(t) else Keys(t) + [name]
  {
    if t != [] && t[0].0 != name {
      BumpKeys(t[1..], name);
      assert Bump(t, name) == [t[0]] + Bump(t[1..], name);
      assert Keys(t) == [t[0].0] + Keys(t[1..]);
    } else if t != [] {
      assert Keys(t) == [name] + Keys(t[1..]);
    }
  }

  /**
   * The Counter of a run of names: each name once, counted as often as it
   * occurs; a name is in it exactly when it is among the names; the counts
   * add up to the number of names; and the names come in the order of their
   * first occurrences.
   */
  lemma TallyOfCounts(names: seq<string>)
    ensures TallyValid(TallyOf(names))
    ensures forall n :: CountOf(TallyOf(names), n) == Occurrences(names, n)
    ensures forall n :: n in Keys(TallyOf(names)) <==> n in names
    ensures TotalCount(TallyOf(names)) == |names|
    ensures forall i, j :: 0 <= i < j < |TallyOf(names)| ==>
      FirstIndex(names, Keys(TallyOf(names))[i]) < FirstIndex(names, Keys(TallyOf(names))[j])
  {
    TallyCounts(names);
    TallyOrder(names);
  }

  /** The counting part of TallyOfCounts. */
  lemma {:induction false} TallyCounts(names: seq<string>)
    ensures TallyValid(TallyOf(names))
    ensures forall n :: CountOf(TallyOf(names), n) == Occurrences(names, n)
    ensures forall n :: n in Keys(TallyOf(names)) <==> n in names
    ensures TotalCount(TallyOf(names)) == |names|
  {
    if names != [] {
      var init := names[..|names| - 1];
      TallyCounts(init);
      BumpCounts(TallyOf(init), names[|names| - 1]);
      assert names == init + [names[|names| - 1]];
      assert forall n :: n in names <==> n in init || n == names[|names| - 1];
    }
  }

  /** The ordering part of TallyOfCounts, by induction on the names. */
  lemma {:induction false} TallyOrder(names: seq<string>)
    ensures forall i, j :: 0 <= i < j < |TallyOf(names)| ==>
      FirstIndex(names, Keys(TallyOf(names))[i]) < FirstIndex(names, Keys(TallyOf(names))[j])
  {
    if names != [] {
      var init := names[..|names| - 1];
      var x := names[|names| - 1];
      TallyOrder(init);
      TallyCounts(init);
      assert names == init + [x];
      FirstSeenOrder(init, x);
    }
  }

  /** The ordering step of TallyOfCounts: counting one more name keeps the keys in first-occurrence order. */
  lemma FirstSeenOrder(init: seq<string>, x: string)
    requires forall n :: n in Keys(TallyOf(init)) <==> n in init
    requires forall i, j :: 0 <= i < j < |TallyOf(init)| ==>
      FirstIndex(init, Keys(TallyOf(init))[i]) < FirstIndex(init, Keys(TallyOf(init))[j])
    ensures forall i, j :: 0 <= i < j < |TallyOf(init + [x])| ==>
      FirstIndex(init + [x], Keys(TallyOf(init + [x]))[i]) < FirstIndex(init + [x], Keys(TallyOf(init + [x]))[j])
  {
    var names := init + [x];
    assert names[..|names| - 1] == init;
    var ks := Keys(TallyOf(init));
    BumpKeys(TallyOf(init), x);
    var ks' := Keys(TallyOf(names));
    assert ks' == if x in ks then ks else ks + [x];
    forall i, j | 0 <= i < j < |ks'|
      ensures FirstIndex(names, ks'[i]) < FirstIndex(names, ks'[j])
    {
      assert ks'[i] == ks[i] && ks[i] in init;
      FirstIndexAppend(init, x, ks'[i]);
      FirstIndexAppend(init, x, ks'[j]);
      if j < |ks| {
        assert ks'[j] == ks[j] && ks[j] in init;
      }
    }
  }

  lemma TallyEmpty(names: seq<string>)
    ensures TallyOf(names) == [] <==> names == []
  {
    if names != [] {
      TallyOfCounts(names);
      assert names[0] in names;
    }
  }

  /** The Counter the stats loop builds: every category of a line that decodes, counted once. */
  method CountByCategory(decode: Decoder, lines: seq<string>) returns (counter: Tally)
    ensures counter == TallyOf(DecodedCategories(decode, lines))
  {
    counter := [];
    for k := 0 to |lines|
      invariant counter == TallyOf(DecodedCategories(decode, lines[..k]))
    {
      assert lines[..k + 1][..k] == lines[..k];
      ghost var before := DecodedCategories(decode, lines[..k]);
      match decode(lines[k]) {
        case Some(info) =>
          assert DecodedCategories(decode, lines[..k + 1]) == before + [info.category];
          assert (before + [info.category])[..|before|] == before;
          counter := Bump(counter, info.category);
        case None =>
          assert DecodedCategories(decode, lines[..k + 1]) == before;
      }
    }
    assert lines[..|lines|] == lines;
  }

  /** max(counter.values()). */
  function MaxCount(t: Tally): (m: nat)
    requires t != []
    ensures forall i :: 0 <= i < |t| ==> t[i].1 <= m
    ensures exists i :: 0 <= i < |t| && t[i].1 == m
  {
    if |t| == 1 then t[0].1
    else
      var rest := MaxCount(t[1..]);
      assert forall i :: 1 <= i < |t| ==> t[i] == t[1..][i - 1];
      if t[0].1 >= rest then t[0].1 else rest
  }

  /** x placed after every entry whose count is at least its own. */
  function InsertByCount(s: Tally, x: (string, nat)): Tally {
    if s == [] then [x]
    else if s[0].1 < x.1 then [x] + s
    else [s[0]] + InsertByCount(s[1..], x)
  }

  /** sorted(counter.items(), key=count, reverse=True): highest count first, ties in their Counter order. */
  function SortByCount(t: Tally): Tally {
    if t == [] then [] else InsertByCount(SortByCount(t[..|t| - 1]), t[|t| - 1])
  }

  predicate NonIncreasing(s: Tally) {
    forall i, j :: 0 <= i < j < |s| ==> s[i].1 >= s[j].1
  }

  /** The entries with count c, in order. */
  function WithCount(s: Tally, c: nat): Tally {
    if s == [] then [] else (if s[0].1 == c then [s[0]] else []) + WithCount(s[1..], c)
  }

  lemma NonIncreasingTail(s: Tally)
    requires NonIncreasing(s) && s != []
    ensures NonIncreasing(s[1..])
  {
    forall i, j | 0 <= i < j < |s[1..]|
      ensures s[1..][i].1 >= s[1..][j].1
    {
      assert s[1..][i] == s[i + 1] && s[1..][j] == s[j + 1];
    }
  }

  lemma {:induction false} InsertMultiset(s: Tally, x: (string, nat))
    ensures multiset(InsertByCount(s, x)) == multiset(s) + multiset{x}
  {
    if s != [] && s[0].1 >= x.1 {
      InsertMultiset(s[1..], x);
      assert s == [s[0]] + s[1..];
    }
  }

  lemma {:induction false} InsertNonIncreasing(s: Tally, x: (string, nat))
    requires NonIncreasing(s)
    ensures NonIncreasing(InsertByCount(s, x))
  {
    if s != [] && s[0].1 >= x.1 {
      NonIncreasingTail(s);
      InsertNonIncreasing(s[1..], x);
      InsertMultiset(s[1..], x);
      InsertHead(s, x);
    }
  }

  lemma {:induction false} InsertWithCount(s: Tally, x: (string, nat), c: nat)
    requires NonIncreasing(s)
    ensures WithCount(InsertByCount(s, x), c) == WithCount(s, c) + if x.1 == c then [x] else []
  {
    if s == [] {
      assert WithCount([x], c) == (if x.1 == c then [x] else []) + WithCount([], c);
    } else if s[0].1 < x.1 {
      var r := [x] + s;
      assert r[1..] == s;
      if x.1 == c {
        NoneWithCount(s, c);
      }
    } else {
      NonIncreasingTail(s);
      InsertWithCount(s[1..], x, c);
      var r := [s[0]] + InsertByCount(s[1..], x);
      assert r[1..] == InsertByCount(s[1..], x);
    }
  }

  /** In a non-increasing run whose head is below c, nothing has count c. */
  lemma {:induction false} NoneWithCount(s: Tally, c: nat)
    requires NonIncreasing(s) && s != [] && s[0].1 < c
    ensures WithCount(s, c) == []
  {
    if |s| > 1 {
      assert s[1..][0] == s[1];
      NonIncreasingTail(s);
      NoneWithCount(s[1..], c);
    }
  }

  /** The head of s stays first when x goes further in, and the order is kept. */
  lemma InsertHead(s: Tally, x: (string, nat))
    requires NonIncreasing(s) && s != [] && s[0].1 >= x.1 && NonIncreasing(InsertByCount(s[1..], x))
    requires multiset(InsertByCount(s[1..], x)) == multiset(s[1..]) + multiset{x}
    ensures NonIncreasing(InsertByCount(s, x))
  {
    var tail := InsertByCount(s[1..], x);
    var r := [s[0]] + tail;
    forall j | 0 < j < |r|
      ensures r[0].1 >= r[j].1
    {
      assert r[j] in multiset(tail);
      assert r[j] in multiset(s[1..]) || r[j] == x;
      if r[j] != x {
        var k :| 0 <= k < |s[1..]| && s[1..][k] == r[j];
        assert s[k + 1] == r[j];
      }
    }
  }

  lemma {:induction false} WithCountAppend(a: Tally, b: Tally, c: nat)
    ensures WithCount(a + b, c) == WithCount(a, c) + WithCount(b, c)
  {
    if a != [] {
      assert (a + b)[1..] == a[1..] + b;
      WithCountAppend(a[1..], b, c);
    } else {
      assert a + b == b;
    }
  }

  /**
   * The chart order: counts never increase down the list, it holds exactly
   * the Counter's entries, and entries with the same count keep their
   * Counter order (Python's sort is stable, also in reverse).
   */
  lemma {:induction false} SortByCountSpec(t: Tally)
    ensures NonIncreasing(SortByCount(t))
    ensures multiset(SortByCount(t)) == multiset(t)
    ensures forall c :: WithCount(SortByCount(t), c) == WithCount(t, c)
  {
    SortNonIncreasing(t);
    SortMultiset(t);
    forall c
      ensures WithCount(SortByCount(t), c) == WithCount(t, c)
    {
      SortStable(t, c);
    }
  }

  lemma {:induction false} SortNonIncreasing(t: Tally)
    ensures NonIncreasing(SortByCount(t))
  {
    if t != [] {
      SortNonIncreasing(t[..|t| - 1]);
      InsertNonIncreasing(SortByCount(t[..|t| - 1]), t[|t| - 1]);
    }
  }

  lemma {:induction false} SortMultiset(t: Tally)
    ensures multiset(SortByCount(t)) == multiset(t)
  {
    if t != [] {
      var init := t[..|t| - 1];
      SortMultiset(init);
      InsertMultiset(SortByCount(init), t[|t| - 1]);
      assert t == init + [t[|t| - 1]];
    }
  }

  lemma {:induction false} SortStable(t: Tally, c: nat)
    ensures WithCount(SortByCount(t), c) == WithCount(t, c)
  {
    if t != [] {
      var init := t[..|t| - 1];
      var x := t[|t| - 1];
      SortStable(init, c);
      SortNonIncreasing(init);
      InsertWithCount(SortByCount(init), x, c);
      assert t == init + [x];
      WithCountAppend(init, [x], c);
      assert WithCount([x], c) == (if x.1 == c then [x] else []) + WithCount([], c);
    }
  }

  /** int(count / max * 30): the length of a category's bar, the largest count getting 30. */
  function BarSize(count: nat, max: nat): nat
    requires max > 0
  {
    (count * 30) / max
  }

  /** Bars run from 0 to 30, the largest count gets all 30, and a larger count never gets a shorter bar. */
  lemma BarSizeBounds(count: nat, other: nat, max: nat)
    requires 0 < max && count <= max && other <= max
    ensures BarSize(count, max) <= 30
    ensures BarSize(max, max) == 30
    ensures count <= other ==> BarSize(count, max) <= BarSize(other, max)
  {
    DivOfMultiple(30, max);
    MulMonotone(count, max, 30);
    DivMonotone(count * 30, max * 30, max);
    MulMonotone(count, other, 30);
    if count <= other {
      DivMonotone(count * 30, other * 30, max);
    }
  }

  lemma MulMonotone(x: int, y: int, d: nat)
    ensures x <= y ==> x * d <= y * d
  {
  }

  lemma DivBounds(a: int, d: int)
    ensures d > 0 ==> (a / d) * d <= a < (a / d) * d + d
  {
  }

  lemma DivMonotone(a: nat, b: nat, d: nat)
    requires 0 < d && a <= b
    ensures a / d <= b / d
  {
    DivBounds(a, d);
    DivBounds(b, d);
    MulMonotone(b / d + 1, a / d, d);
    assert (b / d + 1) * d == (b / d) * d + d;
  }

  lemma DivOfMultiple(k: nat, d: nat)
    requires 0 < d
    ensures (d * k) / d == k
  {
    var q := (d * k) / d;
    DivBounds(d * k, d);
    MulMonotone(k + 1, q, d);
    MulMonotone(q + 1, k, d);
    assert (k + 1) * d == k * d + d;
    assert (q + 1) * d == q * d + d;
  }

  datatype StatsOutcome =
    | NoPurchaseData
    | NoValidData
    | Chart(rows: seq<(string, nat, nat)>, totalPurchases: nat)

  /**
   * view_purchase_stats: nothing to chart when the log holds no lines, or
   * when none of them decodes. Otherwise one row per category in chart
   * order, with its count and its bar, and the number of decoded purchases.
   */
  method ViewPurchaseStats(ledger: Ledger, decode: Decoder) returns (outcome: StatsOutcome)
    ensures var lines := StoredRecords(ledger.text);
      (outcome == NoPurchaseData <==> lines == []) &&
      (outcome == NoValidData <==> lines != [] && DecodedCategories(decode, lines) == [])
    ensures outcome.Chart? ==>
      var names := DecodedCategories(decode, StoredRecords(ledger.text));
      var counter := TallyOf(names);
      var order := SortByCount(counter);
      counter != [] && MaxCount(counter) > 0 && outcome.totalPurchases == |names| &&
      |outcome.rows| == |order| &&
      forall i :: 0 <= i < |order| ==>
        outcome.rows[i] == (order[i].0, order[i].1, BarSize(order[i].1, MaxCount(counter)))
  {
    var all := ledger.LoadPurchases();
    if all == [] {
      return NoPurchaseData;
    }
    var counter := CountByCategory(decode, all);
    TallyEmpty(DecodedCategories(decode, all));
    if counter == [] {
      return NoValidData;
    }
    TallyOfCounts(DecodedCategories(decode, all));
    MaxCountPositive(counter);
    var maxPurchases := MaxCount(counter);
    var order := SortByCount(counter);
    var rows := ChartRows(order, maxPurchases);
    outcome := Chart(rows, TotalCount(counter));
  }

  lemma MaxCountPositive(t: Tally)
    requires TallyValid(t) && t != []
    ensures MaxCount(t) >= 1
  {
    assert t[0].1 >= 1;
  }

  /** One chart row per entry, in order: its name, its count and the length of its bar. */
  method ChartRows(order: Tally, maxPurchases: nat) returns (rows: seq<(string, nat, nat)>)
    requires maxPurchases > 0
    ensures |rows| == |order|
    ensures forall i :: 0 <= i < |order| ==> rows[i] == (order[i].0, order[i].1, BarSize(order[i].1, maxPurchases))
  {
    rows := [];
    for k := 0 to |order|
      invariant |rows| == k
      invariant forall i :: 0 <= i < k ==> rows[i] == (order[i].0, order[i].1, BarSize(order[i].1, maxPurchases))
    {
      rows := rows + [(order[k].0, order[k].1, BarSize(order[k].1, maxPurchases))];
    }
  }
}
