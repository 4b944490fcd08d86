/**
 * The in-memory catalog: the dict from category name to Category that the
 * program loads once and the admin operations change in place. A Python dict
 * keeps insertion order, so it is modelled as a sequence of (key, Category)
 * pairs with distinct keys.
 */
module TicketCatalog {
  import opened Wrappers
  import opened Numbers
  import opened TicketClasses

  /** One entry of the catalog as it stands: its key, its Category object and that object's tickets. */
  datatype Shelf = Shelf(key: string, category: Category, tickets: seq<Ticket>)

  predicate Distinct<T(==)>(s: seq<T>) {
    forall i, j :: 0 <= i < j < |s| ==> s[i] != s[j]
  }

  /**
   * What the catalog keeps true: keys are distinct (a dict), no Category
   * object is filed twice, and no ticket object appears twice in one category.
   */
  ghost predicate ShelvesValid(ss: seq<Shelf>) {
    (forall i, j :: 0 <= i < j < |ss| ==> ss[i].key != ss[j].key && ss[i].category != ss[j].category)
    && (forall i :: 0 <= i < |ss| ==> Distinct(ss[i].tickets))
  }

  /**
   * The agreement the program relies on without enforcing it: each category
   * is filed under its own name, and each of its tickets names that category.
   */
  ghost predicate ShelvesConsistent(ss: seq<Shelf>) {
    forall i :: 0 <= i < |ss| ==>
      ss[i].category.name == ss[i].key && forall t :: t in ss[i].tickets ==> t.fields.category == ss[i].key
  }

  /** Leaving one element out of distinct elements keeps them distinct. */
  lemma DistinctWithout<T>(s: seq<T>, j: nat)
    requires Distinct(s) && j < |s|
    ensures Distinct(s[..j] + s[j + 1..])
  {
    var r := s[..j] + s[j + 1..];
    forall a, b | 0 <= a < b < |r|
      ensures r[a] != r[b]
    {
      var a' := if a < j then a else a + 1;
      var b' := if b < j then b else b + 1;
      assert r[a] == s[a'] && r[b] == s[b'];
    }
  }

  // The three changes the admin makes to the catalog, as values, and what each keeps.

  /** Ticket t put at the end of the tickets of shelf i. */
  function WithTicket(ss: seq<Shelf>, i: nat, t: Ticket): seq<Shelf>
    requires i < |ss|
  {
    ss[i := ss[i].(tickets := ss[i].tickets + [t])]
  }

  /** A new shelf filed last under key, for Category c, holding ticket t alone. */
  function WithShelf(ss: seq<Shelf>, key: string, c: Category, t: Ticket): seq<Shelf> {
    ss + [Shelf(key, c, [t])]
  }

  /** Ticket j of shelf i taken out; the tickets after it move up one place. */
  function WithoutTicket(ss: seq<Shelf>, i: nat, j: nat): seq<Shelf>
    requires i < |ss| && j < |ss[i].tickets|
  {
    ss[i := ss[i].(tickets := ss[i].tickets[..j] + ss[i].tickets[j + 1..])]
  }

  lemma WithTicketValid(ss: seq<Shelf>, i: nat, t: Ticket)
    requires ShelvesValid(ss) && i < |ss| && t !in ss[i].tickets
    ensures ShelvesValid(WithTicket(ss, i, t))
  {
    var ts := ss[i].tickets + [t];
    assert Distinct(ts) by {
      forall a, b | 0 <= a < b < |ts|
        ensures ts[a] != ts[b]
      {
        if b == |ts| - 1 {
          assert ts[a] in ss[i].tickets;
        }
      }
    }
  }

  lemma WithTicketConsistent(ss: seq<Shelf>, i: nat, t: Ticket)
    requires ShelvesConsistent(ss) && i < |ss| && t.fields.category == ss[i].key
    ensures ShelvesConsistent(WithTicket(ss, i, t))
  {
    var r := WithTicket(ss, i, t);
    assert forall u :: u in r[i].tickets ==> u in ss[i].tickets || u == t;
  }

  lemma WithTicketTotal(ss: seq<Shelf>, i: nat, t: Ticket)
    requires i < |ss|
    ensures TotalTickets(WithTicket(ss, i, t)) == TotalTickets(ss) + 1
  {
    assert TicketCounts(WithTicket(ss, i, t)) == TicketCounts(ss)[i := |ss[i].tickets| + 1];
    SumUpdate(TicketCounts(ss), i, |ss[i].tickets| + 1);
  }

  lemma WithShelfValid(ss: seq<Shelf>, key: string, c: Category, t: Ticket)
    requires ShelvesValid(ss)
    requires forall i :: 0 <= i < |ss| ==> ss[i].key != key && ss[i].category != c
    ensures ShelvesValid(WithShelf(ss, key, c, t))
  {
  }

  lemma WithShelfConsistent(ss: seq<Shelf>, key: string, c: Category, t: Ticket)
    requires ShelvesConsistent(ss) && c.name == key && t.fields.category == key
    ensures ShelvesConsistent(WithShelf(ss, key, c, t))
  {
  }

  lemma WithShelfTotal(ss: seq<Shelf>, key: string, c: Category, t: Ticket)
    ensures TotalTickets(WithShelf(ss, key, c, t)) == TotalTickets(ss) + 1
  {
    assert TicketCounts(WithShelf(ss, key, c, t)) == TicketCounts(ss) + [1];
    SumAppend(TicketCounts(ss), [1]);
  }

  lemma WithoutTicketValid(ss: seq<Shelf>, i: nat, j: nat)
    requires ShelvesValid(ss) && i < |ss| && j < |ss[i].tickets|
    ensures ShelvesValid(WithoutTicket(ss, i, j))
  {
    DistinctWithout(ss[i].tickets, j);
  }

  lemma WithoutTicketConsistent(ss: seq<Shelf>, i: nat, j: nat)
    requires ShelvesConsistent(ss) && i < |ss| && j < |ss[i].tickets|
    ensures ShelvesConsistent(WithoutTicket(ss, i, j))
  {
    var ts := ss[i].tickets;
    assert forall u :: u in ts[..j] + ts[j + 1..] ==> u in ts;
  }

  lemma WithoutTicketTotal(ss: seq<Shelf>, i: nat, j: nat)
    requires i < |ss| && j < |ss[i].tickets|
    ensures TotalTickets(WithoutTicket(ss, i, j)) + 1 == TotalTickets(ss)
  {
    var ts := ss[i].tickets[..j] + ss[i].tickets[j + 1..];
    assert |ts| == |ss[i].tickets| - 1;
    TicketCountsRefill(ss, i, ts);
    SumUpdate(TicketCounts(ss), i, |ts|);
  }

  lemma TicketCountsRefill(ss: seq<Shelf>, i: nat, ts: seq<Ticket>)
    requires i < |ss|
    ensures TicketCounts(ss[i := ss[i].(tickets := ts)]) == TicketCounts(ss)[i := |ts|]
  {
  }

  /** The number of tickets on each shelf, in catalog order. */
  function TicketCounts(ss: seq<Shelf>): (r: seq<nat>)
    ensures |r| == |ss| && forall i :: 0 <= i < |ss| ==> r[i] == |ss[i].tickets|
  {
    if ss == [] then [] else [|ss[0].tickets|] + TicketCounts(ss[1..])
  }

  function Sum(ns: seq<nat>): nat {
    if ns == [] then 0 else Sum(ns[..|ns| - 1]) + ns[|ns| - 1]
  }

  /** The number of tickets in the whole catalog. */
  function TotalTickets(ss: seq<Shelf>): nat {
    Sum(TicketCounts(ss))
  }

  lemma {:induction false} SumAppend(ns: seq<nat>, ms: seq<nat>)
    ensures Sum(ns + ms) == Sum(ns) + Sum(ms)
  {
    if ms != [] {
      assert (ns + ms)[..|ns + ms| - 1] == ns + ms[..|ms| - 1];
      SumAppend(ns, ms[..|ms| - 1]);
    } else {
      assert ns + ms == ns;
    }
  }

  /** Changing one count by d changes the sum by d. */
  lemma {:induction false} SumUpdate(ns: seq<nat>, i: nat, v: nat)
    requires i < |ns|
    ensures Sum(ns[i := v]) + ns[i] == Sum(ns) + v
  {
    assert ns == ns[..i] + [ns[i]] + ns[i + 1..];
    assert ns[i := v] == ns[..i] + [v] + ns[i + 1..];
    SumAppend(ns[..i] + [ns[i]], ns[i + 1..]);
    SumAppend(ns[..i] + [v], ns[i + 1..]);
    SumAppend(ns[..i], [ns[i]]);
    SumAppend(ns[..i], [v]);
  }

  /** The position of key k among the shelves' keys, as the dict lookup finds it. */
  function IndexOfKey(es: seq<(string, Category)>, k: string): (r: Option<nat>)
    ensures r.Some? ==> r.value < |es| && es[r.value].0 == k && forall i :: 0 <= i < r.value ==> es[i].0 != k
    ensures r.None? ==> forall i :: 0 <= i < |es| ==> es[i].0 != k
  {
    if es == [] then None
    else if es[0].0 == k then Some(0)
    else match IndexOfKey(es[1..], k)
      case None => None
      case Some(i) => Some(i + 1)
  }

  class Catalog {
    var entries: seq<(string, Category)>

    constructor ()
      ensures entries == []
    {
      entries := [];
    }

    ghost function Categories(): set<Category>
      reads this
    {
      set i | 0 <= i < |entries| :: entries[i].1
    }

    /** The catalog's contents as a value: every key with its Category and that Category's tickets. */
    ghost function Shelves(): (r: seq<Shelf>)
      reads this, Categories()
      ensures |r| == |entries|
      ensures forall i :: 0 <= i < |entries| ==> r[i] == Shelf(entries[i].0, entries[i].1, entries[i].1.tickets)
    {
      seq(|entries|, i requires 0 <= i < |entries| reads this, Categories() =>
        Shelf(entries[i].0, entries[i].1, entries[i].1.tickets))
    }

    /** The number of tickets of each category, in catalog order. */
    function Counts(): (r: seq<nat>)
      reads this, Categories()
      ensures r == TicketCounts(Shelves())
    {
      seq(|entries|, i requires 0 <= i < |entries| reads this, Categories() => |entries[i].1.tickets|)
    }

    /** Every ticket object filed in the catalog. */
    ghost function TicketObjects(): set<Ticket>
      reads this, Categories()
    {
      set i, t | 0 <= i < |entries| && t in entries[i].1.tickets :: t
    }

    ghost predicate Valid()
      reads this, Categories()
    {
      ShelvesValid(Shelves())
    }

    ghost predicate Consistent()
      reads this, Categories()
    {
      ShelvesConsistent(Shelves())
    }
  }

  /** Why a category-then-ticket selection typed at the menu is turned down. */
  datatype SelectError = NotANumber | InvalidCategory | InvalidTicket

  /**
   * The selection the purchase, edit and delete menus share: a category
   * number, then a ticket number within it, both read with int() and
   * counted from 1. `counts` gives the number of tickets of each category.
   */
  function SelectTicket(counts: seq<nat>, categoryText: string, ticketText: string): (r: Result<(nat, nat), SelectError>)
    ensures r.Ok? <==>
      ParseInt(categoryText).Some? && 1 <= ParseInt(categoryText).value <= |counts| &&
      ParseInt(ticketText).Some? && 1 <= ParseInt(ticketText).value <= counts[ParseInt(categoryText).value - 1]
    ensures r.Ok? ==> r.value == (ParseInt(categoryText).value - 1, ParseInt(ticketText).value - 1)
    ensures r.Ok? ==> r.value.0 < |counts| && r.value.1 < counts[r.value.0]
    ensures r == Err(InvalidCategory) <==>
      ParseInt(categoryText).Some? && !(1 <= ParseInt(categoryText).value <= |counts|)
    ensures r == Err(InvalidTicket) <==>
      ParseInt(categoryText).Some? && 1 <= ParseInt(categoryText).value <= |counts| &&
      ParseInt(ticketText).Some? && !(1 <= ParseInt(ticketText).value <= counts[ParseInt(categoryText).value - 1])
    ensures r == Err(NotANumber) <==>
      ParseInt(categoryText).None? ||
      (1 <= ParseInt(categoryText).value <= |counts| && ParseInt(ticketText).None?)
  {
    match ParseInt(categoryText)
    case None => Err(NotANumber)
    case Some(c) =>
      if c - 1 < 0 || c - 1 >= |counts| then Err(InvalidCategory)
      else
        match ParseInt(ticketText)
        case None => Err(NotANumber)
        case Some(t) =>
          if t - 1 < 0 || t - 1 >= counts[c - 1] then Err(InvalidTicket)
          else Ok((c - 1, t - 1))
  }
}
