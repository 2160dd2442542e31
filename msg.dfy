/** The bot's fixed texts and the acknowledgement it sends for an accepted listing. */
module Msg {
  import opened Wrappers
  import opened PyInt

  /**
   * A template as Python's format-string parser splits it: literal text and
   * `{name}` replacement fields. The bot's templates hold no doubled braces,
   * conversions or format specs, so text and plain field names are all there is.
   */
  datatype Piece = Text(text: string) | Field(name: string)

  /** Prefix `x` to a formatted string, keeping a failure. */
  function Prepend(x: string, o: Option<string>): Option<string>
  {
    if o.Some? then Some(x + o.value) else None
  }

  /** `template.format(**args)`: each field replaced by its argument; a missing one raises `KeyError` (`None`). */
  function Format(t: seq<Piece>, args: map<string, string>): (r: Option<string>)
    ensures r.Some? <==> forall i :: 0 <= i < |t| && t[i].Field? ==> t[i].name in args
  {
    if t == [] then Some("")
    else
      var rest := Format(t[1..], args);
      assert forall i :: 1 <= i < |t| ==> t[i] == t[1..][i - 1];
      match t[0]
      case Text(s) => Prepend(s, rest)
      case Field(n) => if n in args then Prepend(args[n], rest) else None
  }

  /** A template of the form text, one `{name}` field, text. */
  predicate OneField(t: seq<Piece>, name: string) {
    |t| == 3 && t[0].Text? && t[1] == Field(name) && t[2].Text?
  }

  /** A one-field template formats to its first text, the argument, its last text. */
  lemma FormatOneField(t: seq<Piece>, name: string, args: map<string, string>)
    requires OneField(t, name) && name in args
    ensures Format(t, args) == Some(t[0].text + args[name] + t[2].text)
  {
    var a, b := t[0].text, t[2].text;
    assert t[1..][1..][1..] == [];
    assert Format(t[2..], args) == Some(b + "") by { assert t[2..][1..] == []; }
    assert t[1..][1..] == t[2..];
    assert b + "" == b;
    assert Format(t[1..], args) == Some(args[name] + b);
    assert a + (args[name] + b) == a + args[name] + b;
  }

  /** The acknowledgements one of which is picked at random; `{item_info}` stands for the listing. */
  const DmReplies: seq<seq<Piece>> := [
    [Text("Got it! I've added your listing for "), Field("item_info"), Text(" to the board. I'll update it soon.")],
    [Text("Thanks! Your offer for "), Field("item_info"), Text(" has been noted. It'll show up on the next market refresh.")],
    [Text("Perfect, listing for "), Field("item_info"), Text(" is now in the queue. The market board will be updated in a bit.")],
    [Text("Alright, received your listing for "), Field("item_info"), Text(". I'll get it posted with the next batch.")],
    [Text("Listing accepted: "), Field("item_info"), Text(". Thanks for contributing to the market!")],
    [Text("Cheers! Your "), Field("item_info"), Text(" sale is registered. It will be public on the next update cycle.")],
    [Text("Noted. "), Field("item_info"), Text(" is on the list. Good luck with the sale!")],
    [Text("Excellent. I've recorded your listing for "), Field("item_info"), Text(".")],
    [Text("All set! Your listing for "), Field("item_info"), Text(" will be on the board after the next scheduled update.")],
    [Text("You got it. "), Field("item_info"), Text(" is now pending for the market update.")],
    [Text("I've jotted that down. "), Field("item_info"), Text(" will be up shortly.")],
    [Text("Great, the market ledger now includes your sale of "), Field("item_info"), Text(".")],
    [Text("Consider it done. Your listing for "), Field("item_info"), Text(" is in.")],
    [Text("Copy that. Adding "), Field("item_info"), Text(" to the market listings.")],
    [Text("Received and processing your listing for "), Field("item_info"), Text(". It will appear on the board soon.")]
  ]

  /** The reply to a DM that starts with `sell` but does not follow the grammar. */
  const HelpMessage: string :=
    "Sorry, I didn't understand that. Please use the format:\n`sell [amount] [item_name] for [price_amount] [price_item]`\n\n**Examples:**\n- `sell 64 diamond for 128 iron_ingot`\n- `sell 1 netherite_sword for 5 diamond_block`\n\n*Note: Item names must be one word (e.g., `diamond_block` not `diamond block`).*"

  const Divider: string := "`------------------------------------------------`"

  /** The board up to the body: a blank line, the title, the how-to line and the first divider. */
  const BoardHeader: string :=
    "\n<:emerald:1185568471587373146> **Minecraft Market Board** <:emerald:1185568471587373146>\n*To list an item, send me a DM! Format: `sell [amount] [item] for [price] [currency]`*\n" + Divider + "\n"

  /** Between the body and the timestamp: the second divider. */
  const BoardMiddle: string := "\n" + Divider + "\n*Last Updated: "

  const BoardFooter: string := "*\n"

  /** The board message, with fields `{market_body}` and `{last_updated}`. */
  const MarketBoardTemplate: seq<Piece> :=
    [Text(BoardHeader), Field("market_body"), Text(BoardMiddle), Field("last_updated"), Text(BoardFooter)]

  /** Every acknowledgement template quotes the listing exactly once, between two texts. */
  lemma EveryReplyQuotesItemInfo(i: nat)
    requires i < |DmReplies|
    ensures OneField(DmReplies[i], "item_info")
  {
  }

  /** The `{item_info}` text: the listing as the sell command spells it after `sell `. */
  function ItemInfo(itemName: string, quantity: int, priceItem: string, priceAmount: int): string
  {
    IntToString(quantity) + " " + itemName + " for " + IntToString(priceAmount) + " " + priceItem
  }

  /**
   * `get_random_dm_reply` with the random choice given as `index`: the chosen
   * template with the listing in place of `{item_info}`.
   */
  function DmReply(index: nat, itemName: string, quantity: int, priceItem: string, priceAmount: int): (r: string)
    requires index < |DmReplies|
    ensures var t := DmReplies[index];
      r == t[0].text + ItemInfo(itemName, quantity, priceItem, priceAmount) + t[2].text
  {
    var t := DmReplies[index];
    var args := map["item_info" := ItemInfo(itemName, quantity, priceItem, priceAmount)];
    EveryReplyQuotesItemInfo(index);
    FormatOneField(t, "item_info", args);
    Format(t, args).value
  }

  /** The acknowledgement always contains the listing text. */
  lemma DmReplyQuotesListing(index: nat, itemName: string, quantity: int, priceItem: string, priceAmount: int)
    requires index < |DmReplies|
    ensures var info, r := ItemInfo(itemName, quantity, priceItem, priceAmount), DmReply(index, itemName, quantity, priceItem, priceAmount);
      exists before, after :: r == before + info + after
  {
    var info, r := ItemInfo(itemName, quantity, priceItem, priceAmount), DmReply(index, itemName, quantity, priceItem, priceAmount);
    EveryReplyQuotesItemInfo(index);
    var a, b := DmReplies[index][0].text, DmReplies[index][2].text;
    assert r == a + info + b;
  }
  /**
   * How many acknowledgement templates there are: `|DmReplies|`, as
   * `ReplyCountIsLength` shows. Contracts use this constant so that the 15
   * template literals stay out of their proof obligations.
   */
  const ReplyCount: nat := 15

  lemma ReplyCountIsLength()
    ensures |DmReplies| == ReplyCount
  {
  }

  /**
   * What the bot sends back to a DM: the help text, or the acknowledgement
   * from template `index` for a listing.
   */
  datatype Reply = Help | Acknowledge(index: nat, itemName: string, quantity: int, priceItem: string, priceAmount: int)

  /** The text of a reply. */
  function ReplyText(r: Reply): string
    requires r.Acknowledge? ==> r.index < ReplyCount
  {
    match r
    case Help => HelpMessage
    case Acknowledge(i, itemName, quantity, priceItem, priceAmount) =>
      ReplyCountIsLength();
      DmReply(i, itemName, quantity, priceItem, priceAmount)
  }

  /** An acknowledgement always quotes the listing it acknowledges. */
  lemma AcknowledgementQuotesListing(r: Reply)
    requires r.Acknowledge? && r.index < ReplyCount
    ensures exists before, after :: ReplyText(r) == before + ItemInfo(r.itemName, r.quantity, r.priceItem, r.priceAmount) + after
  {
    ReplyCountIsLength();
    DmReplyQuotesListing(r.index, r.itemName, r.quantity, r.priceItem, r.priceAmount);
  }


  /**
   * `MARKET_BOARD_TEMPLATE.format(market_body=body, last_updated=now)`: the
   * header ending in the first divider, the body, the second divider, then
   * `*Last Updated: <now>*`.
   */
  function BoardMessage(body: string, now: string): (r: string)
    ensures r == BoardHeader + body + BoardMiddle + now + BoardFooter
  {
    var args := map["market_body" := body, "last_updated" := now];
    FormatBoard(BoardHeader, BoardMiddle, BoardFooter, args);
    Format(MarketBoardTemplate, args).value
  }

  /** The board template's shape, formatted, for any texts around its two fields. */
  lemma FormatBoard(header: string, middle: string, footer: string, args: map<string, string>)
    requires "market_body" in args && "last_updated" in args
    ensures var t := [Text(header), Field("market_body"), Text(middle), Field("last_updated"), Text(footer)];
      Format(t, args) == Some(header + args["market_body"] + middle + args["last_updated"] + footer)
  {
    var t := [Text(header), Field("market_body"), Text(middle), Field("last_updated"), Text(footer)];
    var body, now := args["market_body"], args["last_updated"];
    var tail := [Text(middle), Field("last_updated"), Text(footer)];
    assert t[2..] == tail;
    FormatOneField(tail, "last_updated", args);
    assert t[1..][1..] == t[2..];
    assert Format(t[1..], args) == Some(body + (middle + now + footer));
    assert header + (body + (middle + now + footer)) == header + body + middle + now + footer;
  }


  /** The header ends with the first divider and a line break. */
  lemma HeaderEndsWithDivider()
    ensures |BoardHeader| > |Divider| + 1
    ensures BoardHeader[|BoardHeader| - |Divider| - 1..] == Divider + "\n"
  {
  }

  /** The text after the body opens with a line break and the second divider. */
  lemma MiddleStartsWithDivider()
    ensures |BoardMiddle| > |Divider| + 1
    ensures BoardMiddle[..|Divider| + 1] == "\n" + Divider
  {
  }

  /** Where each part of `hd + body + mid + now + ft` lies. */
  lemma Layout(hd: string, body: string, mid: string, now: string, ft: string, k: nat, j: nat)
    requires k <= |hd| && j <= |mid|
    ensures var r, h := hd + body + mid + now + ft, |hd|;
      && r[h - k..h] == hd[|hd| - k..]
      && r[h..h + |body|] == body
      && r[h + |body|..h + |body| + j] == mid[..j]
      && r[h + |body| + |mid|..|r| - |ft|] == now
  {
    var r, h := hd + body + mid + now + ft, |hd|;
    assert r == hd + (body + (mid + (now + ft)));
    assert r[..h] == hd;
    assert r[h..] == body + (mid + (now + ft));
    assert r[h + |body|..] == mid + (now + ft);
    assert r[h + |body| + |mid|..] == now + ft;
  }

  /** The body sits between the two dividers, and the timestamp between `Last Updated: ` and the closing `*`. */
  lemma BoardBodyBetweenDividers(body: string, now: string)
    ensures var r, h := BoardMessage(body, now), |BoardHeader|;
      && r[h - |Divider| - 1..h] == Divider + "\n"
      && r[h..h + |body|] == body
      && r[h + |body|..h + |body| + |Divider| + 1] == "\n" + Divider
      && r[h + |body| + |BoardMiddle|..|r| - |BoardFooter|] == now
  {
    HeaderEndsWithDivider();
    MiddleStartsWithDivider();
    Layout(BoardHeader, body, BoardMiddle, now, BoardFooter, |Divider| + 1, |Divider| + 1);
  }
}
