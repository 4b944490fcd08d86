/**
 * The two entity classes: a Ticket built from one row of the catalog file,
 * and a Category that owns an ordered list of tickets.
 */
module TicketClasses {
  import opened Wrappers
  import opened Text
  import opened Numbers

  /** One row of the catalog file, column name to text, as csv.DictReader yields it. */
  type Row = map<string, string>

  /** dict.get(key, default). */
  function Get(row: Row, key: string, default: string): string {
    if key in row then row[key] else default
  }

  /** Everything a ticket records except its price, which alone is changed after construction. */
  datatype Fields = Fields(
    category: string,
    categoryId: string,
    categoryDescription: string,
    topupType: string,
    topupId: string,
    topupDescription: string,
    entitlementType: string,
    entitlementUnit: string,
    entitlementValue: string,
    entitlementQuantity: string,
    startDate: string,
    endDate: string,
    passengerClass: string)

  /**
   * The descriptive fields of a ticket made from a row: each column present
   * in the row is copied as it is; a missing name column gives "Unknown", a
   * missing id or description "", and a missing entitlement, date or
   * passenger-class column "N/A".
   */
  function FieldsOf(row: Row): (f: Fields)
    ensures f.category == (if "category_title" in row then row["category_title"] else "Unknown")
    ensures f.topupType == (if "topup_title" in row then row["topup_title"] else "Unknown")
    ensures f.categoryId == (if "category_id" in row then row["category_id"] else "")
    ensures f.categoryDescription == (if "category_description" in row then row["category_description"] else "")
    ensures f.topupId == (if "topup_id" in row then row["topup_id"] else "")
    ensures f.topupDescription == (if "topup_description" in row then row["topup_description"] else "")
    ensures f.entitlementType == (if "topup_entitlement_type" in row then row["topup_entitlement_type"] else "N/A")
    ensures f.entitlementUnit == (if "topup_entitlement_unit" in row then row["topup_entitlement_unit"] else "N/A")
    ensures f.entitlementValue == (if "topup_entitlement_value" in row then row["topup_entitlement_value"] else "N/A")
    ensures f.entitlementQuantity == (if "topup_entitlement_quantity" in row then row["topup_entitlement_quantity"] else "N/A")
    ensures f.startDate == (if "topup_entitlement_start_date" in row then row["topup_entitlement_start_date"] else "N/A")
    ensures f.endDate == (if "topup_entitlement_end_date" in row then row["topup_entitlement_end_date"] else "N/A")
    ensures f.passengerClass == (if "topup_passenger_class_name" in row then row["topup_passenger_class_name"] else "N/A")
  {
    Fields(
      Get(row, "category_title", "Unknown"),
      Get(row, "category_id", ""),
      Get(row, "category_description", ""),
      Get(row, "topup_title", "Unknown"),
      Get(row, "topup_id", ""),
      Get(row, "topup_description", ""),
      Get(row, "topup_entitlement_type", "N/A"),
      Get(row, "topup_entitlement_unit", "N/A"),
      Get(row, "topup_entitlement_value", "N/A"),
      Get(row, "topup_entitlement_quantity", "N/A"),
      Get(row, "topup_entitlement_start_date", "N/A"),
      Get(row, "topup_entitlement_end_date", "N/A"),
      Get(row, "topup_passenger_class_name", "N/A"))
  }

  /** float(pence) / 100, or 0 when float() raises. */
  function PenceToPounds(pence: string): real {
    match ParseFloat(pence)
    case Some(v) => v / 100.0
    case None => 0.0
  }

  /** The price in pounds of a ticket made from a row; the pence column defaults to "0". */
  function PriceOf(row: Row): real {
    PenceToPounds(Get(row, "topup_price_in_pence", "0"))
  }

  /** A pence column holding str(n) gives a price of n / 100 pounds. */
  lemma PenceColumnGivesPounds(row: Row, n: nat)
    requires "topup_price_in_pence" in row && row["topup_price_in_pence"] == NatToString(n)
    ensures PriceOf(row) == n as real / 100.0
  {
    ParseFloatOfNatToString(n);
  }

  /** A missing pence column, or one float() cannot read, gives a price of 0. */
  lemma DefaultPriceIsZero(row: Row)
    requires "topup_price_in_pence" !in row || ParseFloat(row["topup_price_in_pence"]).None?
    ensures PriceOf(row) == 0.0
  {
    if "topup_price_in_pence" !in row {
      assert NatToString(0) == "0";
      ParseFloatOfNatToString(0);
    }
  }

  class Ticket {
    const fields: Fields
    var price: real

    constructor (row: Row)
      ensures fields == FieldsOf(row) && price == PriceOf(row)
    {
      fields := FieldsOf(row);
      price := PriceOf(row);
    }

    /** get_price(): the price as it stands now; reading it changes nothing. */
    function GetPrice(): (p: real)
      reads this
      ensures p == price
    {
      price
    }
  }

  class Category {
    const name: string
    var tickets: seq<Ticket>

    constructor (name: string)
      ensures this.name == name && tickets == []
    {
      this.name := name;
      tickets := [];
    }

    /** add_ticket(t): t goes at the end; the tickets already there keep their places. */
    method AddTicket(t: Ticket)
      modifies this
      ensures tickets == old(tickets) + [t]
    {
      tickets := tickets + [t];
    }

    function GetAllTickets(): seq<Ticket>
      reads this
    {
      tickets
    }

    function GetTicketCount(): (n: nat)
      reads this
      ensures n == |GetAllTickets()|
    {
      |tickets|
    }

    /** The summary "<name> (<count> tickets)", whose count reads back as the number of tickets. */
    function Summary(): (s: string)
      reads this
      ensures exists count :: s == name + " (" + count + " tickets)" && ParseInt(count) == Some(GetTicketCount())
    {
      var count := NatToString(|tickets|);
      ParseIntOfNatToString(|tickets|);
      name + " (" + count + " tickets)"
    }
  }

  /**
   * The file's own test: a single adult ticket of 250 pence, which costs
   * 2.50 pounds, put into a new "Adult" category.
   */
  method BuiltInTest() returns (ticket: Ticket, category: Category)
    ensures ticket.price == 2.5
    ensures category.name == "Adult" && category.tickets == [ticket]
  {
    var row: Row := map[
      "category_title" := "Adult",
      "topup_title" := "Single",
      "topup_price_in_pence" := "250",
      "topup_description" := "Single journey ticket",
      "topup_entitlement_type" := "fixed",
      "topup_entitlement_unit" := "journey",
      "topup_entitlement_value" := "1",
      "topup_passenger_class_name" := "Adult"];
    assert row["topup_price_in_pence"] == "250" == NatToString(250) by {
      assert NatToString(2) == "2" && NatToString(25) == "25";
    }
    PenceColumnGivesPounds(row, 250);
    ticket := new Ticket(row);
    category := new Category("Adult");
    category.AddTicket(ticket);
  }
}
