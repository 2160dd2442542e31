/**
 * The `sell` command of a direct message: `sell <qty> <item> for <price> <currency>`,
 * case-insensitive, split on whitespace.
 */
module Command {
  import opened Wrappers
  import opened PyStr
  import opened PyInt
  import Msg

  /** What a well-formed command asks to list. */
  datatype SellCommand = SellCommand(quantity: int, itemName: string, priceAmount: int, priceItem: string)

  /**
   * The three fates of a DM: ignored (no `sell` prefix), malformed (the help
   * text is sent), or accepted.
   */
  datatype Parsed = Ignored | Malformed | Accepted(command: SellCommand)

  /** `message.content.lower().strip()` */
  function Normalize(content: string): string {
    Strip(Lower(content))
  }

  /** The command structure: six words, `sell` and `for` in place, integers where the amounts go. */
  predicate WellFormed(parts: seq<string>) {
    && |parts| == 6
    && parts[0] == "sell"
    && parts[3] == "for"
    && ParseInt(parts[1]).Some?
    && ParseInt(parts[4]).Some?
  }

  /** The structure test and the two `int()` calls, on the words of a line that starts with `sell`. */
  function ParseWords(parts: seq<string>): (r: Parsed)
    ensures !r.Ignored?
    ensures r.Accepted? <==> WellFormed(parts)
    ensures r.Accepted? ==> r.command.itemName == parts[2] && r.command.priceItem == parts[5]
    ensures r.Accepted? ==> Some(r.command.quantity) == ParseInt(parts[1]) && Some(r.command.priceAmount) == ParseInt(parts[4])
  {
    if |parts| != 6 || parts[0] != "sell" || parts[3] != "for" then Malformed
    else
      match (ParseInt(parts[1]), ParseInt(parts[4]))
      case (Some(quantity), Some(priceAmount)) => Accepted(SellCommand(quantity, parts[2], priceAmount, parts[5]))
      case _ => Malformed
  }

  /** The words of a message, after lower-casing and trimming. */
  function Words(content: string): seq<string> {
    Split(Normalize(content))
  }

  /** The `on_message` parse: prefix test on the normalised text, then the test of its words. */
  function ParseSell(content: string): (r: Parsed)
    ensures r.Ignored? <==> !StartsWith(Normalize(content), "sell")
  {
    var c := Normalize(content);
    if !StartsWith(c, "sell") then Ignored else ParseWords(Split(c))
  }

  /** Letter case does not matter: a DM parses as its lower-cased text does, e.g. `SELL 1 X FOR 2 Y`. */
  lemma ParseSellIgnoresCase(content: string)
    ensures ParseSell(Lower(content)) == ParseSell(content)
  {
    assert Lower(Lower(content)) == Lower(content);
  }

  /** A `sell` line is malformed exactly when its words fail the structure test. */
  lemma ParseSellMalformed(content: string)
    ensures ParseSell(content).Malformed? <==> StartsWith(Normalize(content), "sell") && !WellFormed(Words(content))
  {
  }

  /**
   * An accepted listing is built from the words of the message, and its item and
   * currency are single lower-case words.
   */
  lemma ParseSellAccepted(content: string)
    requires ParseSell(content).Accepted?
    ensures var parts, cmd := Words(content), ParseSell(content).command;
      && WellFormed(parts)
      && cmd == SellCommand(ParseInt(parts[1]).value, parts[2], ParseInt(parts[4]).value, parts[5])
      && IsToken(cmd.itemName) && NoUpper(cmd.itemName)
      && IsToken(cmd.priceItem) && NoUpper(cmd.priceItem)
  {
    var c := Normalize(content);
    var parts := Split(c);
    StripKeeps(Lower(content));
    assert parts[2] in parts && parts[5] in parts;
    assert forall ch | ch in parts[2] :: ch in c;
    assert forall ch | ch in parts[5] :: ch in c;
  }

  /** On text that is its own normal form, the parse is the prefix test and the word test on the text itself. */
  lemma ParseSellNormal(text: string)
    requires Normalize(text) == text
    ensures ParseSell(text) == (if StartsWith(text, "sell") then ParseWords(Split(text)) else Ignored)
  {
  }

  /** The words of `sell <info>` are `sell` followed by the five words of the listing. */
  lemma SellLineWords(q: string, item: string, p: string, cur: string)
    ensures "sell " + (q + " " + item + " for " + p + " " + cur)
         == JoinWith(" ", ["sell", q, item, "for", p, cur])
  {
    var ws := ["sell", q, item, "for", p, cur];
    assert ws[1..][1..][1..][1..][1..] == [cur];
    assert JoinWith(" ", ws[1..][1..][1..][1..]) == p + " " + cur;
    assert JoinWith(" ", ws[1..][1..][1..]) == "for" + " " + (p + " " + cur);
    assert JoinWith(" ", ws[1..][1..]) == item + " " + ("for" + " " + (p + " " + cur));
    assert JoinWith(" ", ws[1..]) == q + " " + (item + " " + ("for" + " " + (p + " " + cur)));
  }

  /** A command line made of lower-case words is its own normal form. */
  lemma NormalizeKeeps(text: string)
    requires NoUpper(text)
    requires text != [] && !IsSpace(text[0]) && !IsSpace(text[|text| - 1])
    ensures Normalize(text) == text
  {
  }

  /** A normalised `sell` line whose words spell a listing is accepted as that listing. */
  lemma AcceptWords(quantity: int, itemName: string, priceAmount: int, priceItem: string, q: string, p: string, text: string)
    requires Normalize(text) == text && StartsWith(text, "sell")
    requires ParseInt(q) == Some(quantity) && ParseInt(p) == Some(priceAmount)
    requires Split(text) == ["sell", q, itemName, "for", p, priceItem]
    ensures ParseSell(text) == Accepted(SellCommand(quantity, itemName, priceAmount, priceItem))
  {
    ParseSellNormal(text);
    AcceptListingWords(quantity, itemName, priceAmount, priceItem, q, p);
  }

  /** The six words of a listing pass the structure test and give back that listing. */
  lemma AcceptListingWords(quantity: int, itemName: string, priceAmount: int, priceItem: string, q: string, p: string)
    requires ParseInt(q) == Some(quantity) && ParseInt(p) == Some(priceAmount)
    ensures ParseWords(["sell", q, itemName, "for", p, priceItem]) == Accepted(SellCommand(quantity, itemName, priceAmount, priceItem))
  {
  }

  /** A `sell` line of words splits into those words. */
  lemma SellLineSplit(q: string, item: string, p: string, cur: string)
    requires IsToken(q) && IsToken(item) && IsToken(p) && IsToken(cur)
    ensures Split("sell " + (q + " " + item + " for " + p + " " + cur)) == ["sell", q, item, "for", p, cur]
  {
    SellLineWords(q, item, p, cur);
    assert IsToken("sell") && IsToken("for");
    SplitJoin(["sell", q, item, "for", p, cur]);
  }

  /** A `sell` line of lower-case words is its own normal form. */
  lemma SellLineNormal(q: string, item: string, p: string, cur: string)
    requires NoUpper(q) && NoUpper(item) && NoUpper(p) && IsToken(cur) && NoUpper(cur)
    ensures Normalize("sell " + (q + " " + item + " for " + p + " " + cur)) == "sell " + (q + " " + item + " for " + p + " " + cur)
  {
    var text := "sell " + (q + " " + item + " for " + p + " " + cur);
    assert NoUpper(text);
    assert text[|text| - 1] == cur[|cur| - 1];
    assert cur[|cur| - 1] in cur;
    NormalizeKeeps(text);
  }

  /** A `sell` line of lower-case words is its own normal form and splits into those words. */
  lemma SellLineParts(q: string, item: string, p: string, cur: string)
    requires IsToken(q) && NoUpper(q) && IsToken(item) && NoUpper(item)
    requires IsToken(p) && NoUpper(p) && IsToken(cur) && NoUpper(cur)
    ensures var text := "sell " + (q + " " + item + " for " + p + " " + cur);
      && Normalize(text) == text
      && StartsWith(text, "sell")
      && Split(text) == ["sell", q, item, "for", p, cur]
  {
    var text := "sell " + (q + " " + item + " for " + p + " " + cur);
    SellLineSplit(q, item, p, cur);
    SellLineNormal(q, item, p, cur);
    assert text[..4] == "sell";
  }

  /** `str(n)` is a lower-case word. */
  lemma IntWord(n: int)
    ensures IsToken(IntToString(n)) && NoUpper(IntToString(n))
  {
  }

  /**
   * Round trip of the acknowledgement: `sell ` followed by the `item_info` text
   * of a listing parses back to that listing, for any integers (zero and
   * negative included) and any one-word, lower-case item and currency names.
   */
  lemma ParseItemInfo(quantity: int, itemName: string, priceAmount: int, priceItem: string)
    requires IsToken(itemName) && NoUpper(itemName)
    requires IsToken(priceItem) && NoUpper(priceItem)
    ensures ParseSell("sell " + Msg.ItemInfo(itemName, quantity, priceItem, priceAmount))
         == Accepted(SellCommand(quantity, itemName, priceAmount, priceItem))
  {
    var q, p := IntToString(quantity), IntToString(priceAmount);
    var text := "sell " + (q + " " + itemName + " for " + p + " " + priceItem);
    assert "sell " + Msg.ItemInfo(itemName, quantity, priceItem, priceAmount) == text;
    IntWord(quantity);
    IntWord(priceAmount);
    SellLineParts(q, itemName, p, priceItem);
    AcceptWords(quantity, itemName, priceAmount, priceItem, q, p, text);
  }
}
