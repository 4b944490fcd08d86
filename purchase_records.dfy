/**
 * What the program reads back from the purchase log. Purchase and its
 * decoder Purchase.from_file_format are not part of this model: the decoder
 * is a parameter, a function from a stored line to the record it yields, or
 * None when it raises. Everything here is stated for every such decoder.
 */
module PurchaseRecords {
  import opened Wrappers
  import opened Numbers
  import Text
  import FileHandler

  /** The fields the program reads from a decoded purchase, each as text. */
  datatype PurchaseInfo = PurchaseInfo(timestamp: string, category: string, topupType: string, quantity: string, total: string)

  type Decoder = string -> Option<PurchaseInfo>

  /** float(info['total']) of a stored line, or None when decoding or float() raises. */
  function LineTotal(decode: Decoder, line: string): Option<real> {
    match decode(line)
    case None => None
    case Some(info) => ParseFloat(info.total)
  }

  /** The sum of the totals of the lines whose total can be read; the other lines add nothing. */
  function Revenue(decode: Decoder, lines: seq<string>): real {
    if lines == [] then 0.0
    else
      Revenue(decode, lines[..|lines| - 1]) +
        match LineTotal(decode, lines[|lines| - 1]) case Some(v) => v case None => 0.0
  }

  /** The number of lines whose total can be read. */
  function ReadableCount(decode: Decoder, lines: seq<string>): nat {
    if lines == [] then 0
    else ReadableCount(decode, lines[..|lines| - 1]) + if LineTotal(decode, lines[|lines| - 1]).Some? then 1 else 0
  }

  /** The categories of the lines that decode, in log order. */
  function DecodedCategories(decode: Decoder, lines: seq<string>): seq<string> {
    if lines == [] then []
    else
      DecodedCategories(decode, lines[..|lines| - 1]) +
        match decode(lines[|lines| - 1]) case Some(info) => [info.category] case None => []
  }

  /**
   * The loop the purchase reports run over the stored lines: the total of every line
   * whose total can be read is added up, and those lines are counted.
   */
  method AddUpPurchases(decode: Decoder, lines: seq<string>) returns (revenue: real, count: nat)
    ensures revenue == Revenue(decode, lines) && count == ReadableCount(decode, lines)
  {
    revenue := 0.0;
    count := 0;
    for k := 0 to |lines|
      invariant revenue == Revenue(decode, lines[..k])
      invariant count == ReadableCount(decode, lines[..k])
    {
      assert lines[..k + 1][..k] == lines[..k];
      match LineTotal(decode, lines[k]) {
        case Some(v) =>
          revenue := revenue + v;
          count := count + 1;
        case None =>
      }
    }
    assert lines[..|lines|] == lines;
  }

  /** Revenue over two runs of lines is the sum of their revenues. */
  lemma {:induction false} RevenueAppend(decode: Decoder, ls: seq<string>, ms: seq<string>)
    ensures Revenue(decode, ls + ms) == Revenue(decode, ls) + Revenue(decode, ms)
  {
    if ms == [] {
      assert ls + ms == ls;
    } else {
      assert (ls + ms)[..|ls + ms| - 1] == ls + ms[..|ms| - 1];
      RevenueAppend(decode, ls, ms[..|ms| - 1]);
    }
  }

  /** A line whose total can be read also decodes, so it is never counted without being decoded. */
  lemma {:induction false} ReadableWithinDecoded(decode: Decoder, lines: seq<string>)
    ensures ReadableCount(decode, lines) <= |DecodedCategories(decode, lines)| <= |lines|
  {
    if lines != [] {
      ReadableWithinDecoded(decode, lines[..|lines| - 1]);
    }
  }

  /** When every line's total can be read, the revenue is the plain sum of the totals. */
  lemma {:induction false} RevenueOfReadableLines(decode: Decoder, lines: seq<string>)
    requires forall i :: 0 <= i < |lines| ==> LineTotal(decode, lines[i]).Some?
    ensures ReadableCount(decode, lines) == |lines|
    ensures Revenue(decode, lines) == SumTotals(decode, lines)
  {
    if lines != [] {
      RevenueOfReadableLines(decode, lines[..|lines| - 1]);
    }
  }

  ghost function SumTotals(decode: Decoder, lines: seq<string>): real
    requires forall i :: 0 <= i < |lines| ==> LineTotal(decode, lines[i]).Some?
  {
    if lines == [] then 0.0 else SumTotals(decode, lines[..|lines| - 1]) + LineTotal(decode, lines[|lines| - 1]).value
  }

  /**
   * Saving one more record to the log adds exactly that record's total to the
   * revenue read back, and one to the readable count when it can be read.
   */
  lemma SaveAddsToRevenue(decode: Decoder, text: string, record: string)
    requires FileHandler.Terminated(text) && FileHandler.NoBreak(record)
    ensures var after := FileHandler.StoredRecords(text + record + "\n");
      var before := FileHandler.StoredRecords(text);
      var added := Text.Strip(record);
      Revenue(decode, after) == Revenue(decode, before) + (match LineTotal(decode, added) case Some(v) => v case None => 0.0) &&
      ReadableCount(decode, after) == ReadableCount(decode, before) + (if LineTotal(decode, added).Some? then 1 else 0)
  {
    FileHandler.SaveThenLoad(text, record);
    var before := FileHandler.StoredRecords(text);
    assert (before + [Text.Strip(record)])[..|before|] == before;
  }
}
