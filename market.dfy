/**
 * The bot's state and its two event handlers: `on_message`, which appends a
 * listing for an accepted `sell` DM, and `update_market_board`, which renders
 * the board and edits the known board message or posts a new one.
 *
 * Discord is not modelled: whether the market channel exists, what fetching the
 * stored message yields and what sending or editing yields are parameters, as
 * are the current time strings and the index of the acknowledgement template.
 */
module Market {
  import opened Wrappers
  import opened PyStr
  import opened PyInt
  import opened Listings
  import opened Command
  import opened Board
  import Msg

  /** `market_data`: the listings and the id of the board message, if one is known. */
  datatype MarketData = MarketData(listings: seq<Listing>, messageId: Option<int>)

  /** The value `market_data` starts with, and the one a corrupt file is replaced by. */
  const Fresh := MarketData([], None)

  /** The contents of `market_data.json`: missing, not valid JSON, or a saved `market_data`. */
  datatype Disk = Absent | Garbled | Stored(data: MarketData)

  /** `load_data`: a missing file keeps what is in memory, a corrupt one gives the fresh value. */
  function Load(current: MarketData, disk: Disk): MarketData
  {
    match disk
    case Absent => current
    case Garbled => Fresh
    case Stored(d) => d
  }

  /** `if market_data.get('market_message_id')`: `None` and `0` both count as no message. */
  predicate HasMessageId(id: Option<int>) {
    id.Some? && id.value != 0
  }

  /** A message the bot sees: whether it is a DM, whether it is the bot's own, its author and text. */
  datatype Incoming = Incoming(isDirect: bool, fromSelf: bool, authorId: int, authorName: string, content: string)

  /** The listing `on_message` records for an accepted command; `now` is the UTC ISO timestamp. */
  function NewListing(m: Incoming, c: SellCommand, now: string): Listing {
    Listing(IntToString(m.authorId), m.authorName, c.itemName, c.quantity, c.priceItem, c.priceAmount, now)
  }

  /** What `channel.fetch_message` does with the stored id. */
  datatype Fetch = Found | NotFound | FetchForbidden | FetchError

  /** What `edit` or `channel.send` does; a sent message has an id. */
  datatype Post = Sent(id: int) | PostForbidden | PostError

  /** How a run of `update_market_board` ends. */
  datatype TickOutcome =
    | NoChannel
    | UnitPriceRaises
    | FetchDenied
    | FetchFailed
    | Edited(text: string)
    | Posted(text: string, id: int)
    | PostDenied
    | PostFailed

  /** The whole of what the handlers read and change: memory and the data file. */
  datatype State = State(data: MarketData, disk: Disk)

  /**
   * `on_message` on a state: the reply it sends (if any) and the state after.
   * An accepted listing is appended and the data saved before the acknowledgement.
   */
  function Receive(s: State, m: Incoming, replyIndex: nat, now: string): (Option<Msg.Reply>, State)
    requires replyIndex < Msg.ReplyCount
  {
    if !m.isDirect || m.fromSelf then (None, s)
    else
      match ParseSell(m.content)
      case Ignored => (None, s)
      case Malformed => (Some(Msg.Help), s)
      case Accepted(c) =>
        var data := s.data.(listings := s.data.listings + [NewListing(m, c, now)]);
        (Some(Msg.Acknowledge(replyIndex, c.itemName, c.quantity, c.priceItem, c.priceAmount)), State(data, Stored(data)))
  }

  /**
   * The fetch-then-edit-or-post part of `update_market_board`, given the board
   * text: look up the stored message, then edit it or post a new one and save.
   */
  function Reconcile(s: State, text: string, fetch: Fetch, post: Post): (r: (TickOutcome, State))
  {
    var known := HasMessageId(s.data.messageId);
    if known && fetch == FetchForbidden then (FetchDenied, s)
    else if known && fetch == FetchError then (FetchFailed, s)
    else
      var editing := known && fetch == Found;
      var data := if known && fetch == NotFound then s.data.(messageId := None) else s.data;
      match post
      case Sent(id) =>
        if editing then (Edited(text), State(data, Stored(data)))
        else
          var posted := data.(messageId := Some(id));
          (Posted(text, id), State(posted, Stored(posted)))
      case PostForbidden => (PostDenied, State(data, s.disk))
      case PostError => (PostFailed, State(data, s.disk))
  }

  /** `update_market_board` on a state: find the channel, render the board, then reconcile. */
  function Tick(s: State, channelPresent: bool, fetch: Fetch, post: Post, now: string): (r: (TickOutcome, State))
  {
    if !channelPresent then (NoChannel, s)
    else
      match BoardBody(s.data.listings)
      case None => (UnitPriceRaises, s)
      case Some(body) => Reconcile(s, Msg.BoardMessage(body, now), fetch, post)
  }

  /**
   * The data file never runs ahead of memory: once written it holds the
   * listings in memory, and its message id is the one in memory unless memory
   * has dropped it; before the first write memory still holds the fresh value.
   */
  predicate DiskLags(s: State) {
    match s.disk
    case Stored(d) => d.listings == s.data.listings && (d.messageId == s.data.messageId || s.data.messageId.None?)
    case _ => s.data == Fresh
  }

  /** A DM that is not to the bot, or is the bot's own, or does not start with `sell`, gets no reply and changes nothing. */
  lemma ReceiveIgnored(s: State, m: Incoming, replyIndex: nat, now: string)
    requires replyIndex < Msg.ReplyCount
    ensures var r := Receive(s, m, replyIndex, now);
      r.0.None? <==> !m.isDirect || m.fromSelf || !StartsWith(Normalize(m.content), "sell")
    ensures var r := Receive(s, m, replyIndex, now);
      r.0.None? ==> r.1 == s
  {
  }

  /** A malformed `sell` DM gets the help text and changes nothing. */
  lemma ReceiveMalformed(s: State, m: Incoming, replyIndex: nat, now: string)
    requires replyIndex < Msg.ReplyCount
    requires m.isDirect && !m.fromSelf
    requires StartsWith(Normalize(m.content), "sell") && !WellFormed(Words(m.content))
    ensures Receive(s, m, replyIndex, now) == (Some(Msg.Help), s)
  {
    ParseSellMalformed(m.content);
  }

  /**
   * An accepted DM appends exactly one listing, built from the words of the
   * message, leaves the earlier listings and the message id alone, saves, and
   * acknowledges that listing with the chosen template.
   */
  lemma ReceiveAccepted(s: State, m: Incoming, replyIndex: nat, now: string)
    requires replyIndex < Msg.ReplyCount
    requires m.isDirect && !m.fromSelf && ParseSell(m.content).Accepted?
    ensures var r, ws := Receive(s, m, replyIndex, now), Words(m.content);
      && |r.1.data.listings| == |s.data.listings| + 1
      && r.1.data.listings[..|s.data.listings|] == s.data.listings
      && r.1.data.messageId == s.data.messageId
      && r.1.disk == Stored(r.1.data)
      && var l := r.1.data.listings[|s.data.listings|];
        && l.sellerId == IntToString(m.authorId) && l.sellerName == m.authorName && l.timestamp == now
        && Some(l.quantity) == ParseInt(ws[1]) && l.itemName == ws[2]
        && Some(l.priceAmount) == ParseInt(ws[4]) && l.priceItem == ws[5]
        && r.0 == Some(Msg.Acknowledge(replyIndex, l.itemName, l.quantity, l.priceItem, l.priceAmount))
  {
    var c := ParseSell(m.content).command;
    ParseSellAccepted(m.content);
    var r := Receive(s, m, replyIndex, now);
    assert r.1.data.listings == s.data.listings + [NewListing(m, c, now)];
  }

  /** The ledger is append-only: a DM keeps every earlier listing in place and adds at most one. */
  lemma ReceiveAppendOnly(s: State, m: Incoming, replyIndex: nat, now: string)
    requires replyIndex < Msg.ReplyCount
    ensures var r := Receive(s, m, replyIndex, now);
      && |s.data.listings| <= |r.1.data.listings| <= |s.data.listings| + 1
      && r.1.data.listings[..|s.data.listings|] == s.data.listings
      && r.1.data.messageId == s.data.messageId
  {
    var r := Receive(s, m, replyIndex, now);
    assert r.1.data.listings == s.data.listings || r.1.data.listings[..|s.data.listings|] == s.data.listings;
  }

  /** Reconciling never changes the listings, and writes the file only with what is in memory. */
  lemma ReconcileKeepsListings(s: State, text: string, fetch: Fetch, post: Post)
    ensures var r := Reconcile(s, text, fetch, post);
      && r.1.data.listings == s.data.listings
      && (r.1.disk == s.disk || r.1.disk == Stored(r.1.data))
  {
  }

  /** A forbidden or failed fetch of a known message ends the run with nothing changed. */
  lemma ReconcileFetchFails(s: State, text: string, fetch: Fetch, post: Post)
    requires HasMessageId(s.data.messageId) && (fetch == FetchForbidden || fetch == FetchError)
    ensures Reconcile(s, text, fetch, post) == (if fetch == FetchForbidden then FetchDenied else FetchFailed, s)
  {
  }

  /** Editing the found message keeps the message id and saves. */
  lemma ReconcileEdits(s: State, text: string, id: int)
    requires HasMessageId(s.data.messageId)
    ensures Reconcile(s, text, Found, Sent(id)) == (Edited(text), State(s.data, Stored(s.data)))
  {
  }

  /**
   * Without a usable message id (none, zero, or one whose message is gone) the
   * board is posted anew, and a successful post records and saves the new id.
   */
  lemma ReconcilePosts(s: State, text: string, fetch: Fetch, id: int)
    requires !HasMessageId(s.data.messageId) || fetch == NotFound
    ensures var r := Reconcile(s, text, fetch, Sent(id));
      && r.0 == Posted(text, id)
      && r.1.data == s.data.(messageId := Some(id))
      && r.1.disk == Stored(r.1.data)
  {
  }

  /**
   * A message that has gone missing and a post that then fails leave memory
   * without a message id while the file keeps the old one.
   */
  lemma ReconcileNotFoundThenPostFails(s: State, text: string, post: Post)
    requires HasMessageId(s.data.messageId) && !post.Sent?
    ensures var r := Reconcile(s, text, NotFound, post);
      && r.0 == (if post == PostForbidden then PostDenied else PostFailed)
      && r.1.data == s.data.(messageId := None)
      && r.1.disk == s.disk
  {
  }

  /**
   * When the board was found, or there was no usable id, and the edit or post
   * then fails, the run ends with nothing changed: the id is kept and the file
   * is not written.
   */
  lemma ReconcilePostFails(s: State, text: string, fetch: Fetch, post: Post)
    requires !post.Sent? && (!HasMessageId(s.data.messageId) || fetch == Found)
    ensures Reconcile(s, text, fetch, post) == (if post == PostForbidden then PostDenied else PostFailed, s)
  {
  }

  /** Reconciling keeps the file no further ahead of memory than it was. */
  lemma ReconcileKeepsLag(s: State, text: string, fetch: Fetch, post: Post)
    requires DiskLags(s)
    ensures DiskLags(Reconcile(s, text, fetch, post).1)
  {
  }

  /**
   * A missing channel, or a listing whose unit price raises (zero quantity, or
   * a quotient beyond the double range), ends the run with nothing changed.
   */
  lemma TickAborts(s: State, channelPresent: bool, fetch: Fetch, post: Post, now: string)
    requires !channelPresent || !Priced(s.data.listings)
    ensures Tick(s, channelPresent, fetch, post, now) == (if channelPresent then UnitPriceRaises else NoChannel, s)
  {
  }

  /**
   * Otherwise the run reconciles with the board text: the fixed header, the
   * entries of the sorted items (the empty-market sentence when there are no
   * listings), the second divider and the time.
   */
  lemma TickReconciles(s: State, fetch: Fetch, post: Post, now: string)
    requires Priced(s.data.listings)
    ensures var body := BoardBody(s.data.listings).value;
      && Tick(s, true, fetch, post, now) == Reconcile(s, Msg.BoardMessage(body, now), fetch, post)
      && Msg.BoardMessage(body, now) == Msg.BoardHeader + body + Msg.BoardMiddle + now + Msg.BoardFooter
      && (s.data.listings == [] ==> body == EmptyMarket)
  {
  }

  /** A run of the board update never changes the listings, and writes the file only with what is in memory. */
  lemma TickKeepsListings(s: State, channelPresent: bool, fetch: Fetch, post: Post, now: string)
    ensures var r := Tick(s, channelPresent, fetch, post, now);
      && r.1.data.listings == s.data.listings
      && (r.1.disk == s.disk || r.1.disk == Stored(r.1.data))
  {
    if channelPresent && Priced(s.data.listings) {
      TickReconciles(s, fetch, post, now);
      ReconcileKeepsListings(s, Msg.BoardMessage(BoardBody(s.data.listings).value, now), fetch, post);
    } else {
      TickAborts(s, channelPresent, fetch, post, now);
    }
  }

  /**
   * Loading keeps the file as it is and leaves memory agreeing with it, also
   * at start-up, where memory is still fresh and the file holds saved data.
   */
  lemma LoadKeepsLag(s: State)
    requires s.disk.Stored? || DiskLags(s)
    ensures DiskLags(State(Load(s.data, s.disk), s.disk))
  {
  }

  /** Handling a DM keeps the file no further ahead of memory than it was. */
  lemma ReceiveKeepsLag(s: State, m: Incoming, replyIndex: nat, now: string)
    requires replyIndex < Msg.ReplyCount
    requires DiskLags(s)
    ensures DiskLags(Receive(s, m, replyIndex, now).1)
  {
  }

  /** A run of the board update keeps the file no further ahead of memory than it was. */
  lemma TickKeepsLag(s: State, channelPresent: bool, fetch: Fetch, post: Post, now: string)
    requires DiskLags(s)
    ensures DiskLags(Tick(s, channelPresent, fetch, post, now).1)
  {
    if channelPresent && Priced(s.data.listings) {
      TickReconciles(s, fetch, post, now);
      ReconcileKeepsLag(s, Msg.BoardMessage(BoardBody(s.data.listings).value, now), fetch, post);
    } else {
      TickAborts(s, channelPresent, fetch, post, now);
    }
  }

  /**
   * Once a listing whose unit price raises is in the ledger, no DM removes it
   * and every later board update stops at the division: the board is never
   * updated again.
   */
  lemma UnpricedListingPersists(s: State, m: Incoming, replyIndex: nat, now: string, channelPresent: bool, fetch: Fetch, post: Post, later: string)
    requires replyIndex < Msg.ReplyCount
    requires !Priced(s.data.listings)
    ensures !Priced(Receive(s, m, replyIndex, now).1.data.listings)
    ensures channelPresent ==> Tick(s, channelPresent, fetch, post, later) == (UnitPriceRaises, s)
  {
    TickAborts(s, channelPresent, fetch, post, later);
    var i :| 0 <= i < |s.data.listings| && !Divisible(s.data.listings[i]);
    ReceiveAppendOnly(s, m, replyIndex, now);
    var after := Receive(s, m, replyIndex, now).1.data.listings;
    assert after[i] == s.data.listings[i];
  }

  /** A DM offering zero of an item is accepted, which is how such a listing gets in. */
  lemma ZeroQuantityAccepted(itemName: string, priceAmount: int, priceItem: string)
    requires IsToken(itemName) && NoUpper(itemName) && IsToken(priceItem) && NoUpper(priceItem)
    ensures ParseSell("sell " + Msg.ItemInfo(itemName, 0, priceItem, priceAmount)).Accepted?
    ensures ParseSell("sell " + Msg.ItemInfo(itemName, 0, priceItem, priceAmount)).command.quantity == 0
  {
    ParseItemInfo(0, itemName, priceAmount, priceItem);
  }

  /**
   * A DM offering one of an item for a price of at least 2^1024 - 2^970 is
   * accepted, and the listing it appends is one whose unit price raises
   * `OverflowError`: `int()` takes any number of digits.
   */
  lemma OverflowingPriceAccepted(s: State, m: Incoming, replyIndex: nat, now: string, itemName: string, priceAmount: int, priceItem: string)
    requires replyIndex < Msg.ReplyCount
    requires IsToken(itemName) && NoUpper(itemName) && IsToken(priceItem) && NoUpper(priceItem)
    requires priceAmount >= FloatOverflow
    requires m.isDirect && !m.fromSelf && m.content == "sell " + Msg.ItemInfo(itemName, 1, priceItem, priceAmount)
    ensures var after := Receive(s, m, replyIndex, now).1.data.listings;
      && |after| == |s.data.listings| + 1
      && after[|s.data.listings|].quantity == 1
      && after[|s.data.listings|].priceAmount == priceAmount
      && !Priced(after)
  {
    ParseItemInfo(1, itemName, priceAmount, priceItem);
    var after := Receive(s, m, replyIndex, now).1.data.listings;
    assert !Divisible(after[|s.data.listings|]);
  }

  /** The bot process: `market_data` in memory and the data file. */
  class MarketBot {
    var data: MarketData
    var disk: Disk

    function Snapshot(): State
      reads this
    {
      State(data, disk)
    }

    /** Start-up: `market_data` holds the fresh value; the file is whatever is on disk. */
    constructor(initialDisk: Disk)
      ensures data == Fresh && disk == initialDisk
      ensures initialDisk.Stored? || DiskLags(Snapshot())
    {
      data := Fresh;
      disk := initialDisk;
    }

    /** `load_data` */
    method LoadData()
      modifies this
      ensures data == Load(old(data), old(disk)) && disk == old(disk)
    {
      match disk
      case Absent =>
      case Garbled =>
        data := Fresh;
      case Stored(d) =>
        data := d;
    }

    /** `save_data` */
    method SaveData()
      modifies this
      ensures disk == Stored(data) && data == old(data)
    {
      disk := Stored(data);
    }

    /** `on_message` with the acknowledgement template chosen by `replyIndex`. */
    method OnMessage(m: Incoming, replyIndex: nat, now: string) returns (reply: Option<string>)
      requires replyIndex < Msg.ReplyCount
      modifies this
      ensures var r := Receive(old(Snapshot()), m, replyIndex, now);
        && Snapshot() == r.1
        && reply == if r.0.None? then None else Some(Msg.ReplyText(r.0.value))
      ensures m.isDirect && !m.fromSelf && ParseSell(m.content).Malformed? ==>
        reply == Some(Msg.HelpMessage) && data == old(data) && disk == old(disk)
    {
      if !m.isDirect || m.fromSelf {
        return None;
      }
      match ParseSell(m.content)
      case Ignored =>
        reply := None;
      case Malformed =>
        reply := Some(Msg.ReplyText(Msg.Help));
      case Accepted(c) =>
        data := data.(listings := data.listings + [NewListing(m, c, now)]);
        SaveData();
        reply := Some(Msg.ReplyText(Msg.Acknowledge(replyIndex, c.itemName, c.quantity, c.priceItem, c.priceAmount)));
    }

    /** The fetch-then-edit-or-post part of `update_market_board`, for the rendered `text`. */
    method ReconcileBoard(text: string, fetch: Fetch, post: Post) returns (outcome: TickOutcome)
      modifies this
      ensures (outcome, Snapshot()) == Reconcile(old(Snapshot()), text, fetch, post)
    {
      var editing := false;
      if HasMessageId(data.messageId) {
        match fetch
        case Found =>
          editing := true;
        case NotFound =>
          data := data.(messageId := None);
        case FetchForbidden =>
          return FetchDenied;
        case FetchError =>
          return FetchFailed;
      }
      match post
      case Sent(id) =>
        if editing {
          outcome := Edited(text);
        } else {
          data := data.(messageId := Some(id));
          outcome := Posted(text, id);
        }
        SaveData();
      case PostForbidden =>
        outcome := PostDenied;
      case PostError =>
        outcome := PostFailed;
    }

    /** `update_market_board`, with the channel lookup and the Discord calls' results as parameters. */
    method UpdateMarketBoard(channelPresent: bool, fetch: Fetch, post: Post, now: string) returns (outcome: TickOutcome)
      modifies this
      ensures (outcome, Snapshot()) == Tick(old(Snapshot()), channelPresent, fetch, post, now)
    {
      if !channelPresent {
        return NoChannel;
      }
      var body := RenderBody(data.listings);
      if body.None? {
        return UnitPriceRaises;
      }
      var text := Msg.BoardMessage(body.value, now);
      outcome := ReconcileBoard(text, fetch, post);
    }
  }
}
