/**
 * The text of the market board (`update_market_board`, before the message is
 * fetched): per item, the cheapest listing by unit price, its price with
 * trailing zeros dropped, and the number of listings; items in sorted order.
 */
module Board {
  import opened Wrappers
  import opened PyStr
  import opened PyInt
  import opened PySorted
  import opened Listings

  /**
   * 2^1024 - 2^970, halfway between the largest double (2^1024 - 2^971) and
   * 2^1024. Python's `int / int` rounds the exact quotient to the nearest
   * double, a tie going to the even one, and raises `OverflowError` when the
   * result would be infinite: exactly when the quotient's magnitude is at
   * least this number. Factored: (2^54 - 1) * 2^970, that is `0x3fffffffffffff`
   * shifted left by 970 bits (`0xfffffffffffffc` followed by 242 hex zeros).
   */
  const FloatOverflow: int := 0xfffffffffffffc00000000000000000000000000000000000000000000000000000000000000000000000000000000000000000000000000000000000000000000000000000000000000000000000000000000000000000000000000000000000000000000000000000000000000000000000000000000000000000000000000

  /**
   * `price_amount / quantity` gives a float: it raises `ZeroDivisionError` for
   * a zero quantity and `OverflowError` for a quotient beyond the double range.
   */
  predicate Divisible(l: Listing) {
    l.quantity != 0 && Abs(l.priceAmount) < FloatOverflow * Abs(l.quantity)
  }

  /** Every listing of `g` has a unit price that `price_amount / quantity` computes without raising. */
  predicate Priced(g: seq<Listing>) {
    forall i :: 0 <= i < |g| ==> Divisible(g[i])
  }

  /** `price_amount / quantity`, exactly. */
  function UnitPrice(l: Listing): real
    requires l.quantity != 0
  {
    l.priceAmount as real / l.quantity as real
  }

  /** The unit price as a fraction with a positive denominator: numerator ... */
  function Num(l: Listing): int {
    if l.quantity < 0 then -l.priceAmount else l.priceAmount
  }

  /** ... and denominator. */
  function Den(l: Listing): int {
    if l.quantity < 0 then -l.quantity else l.quantity
  }

  /** `a` is strictly cheaper per unit than `b`, compared on integers by cross-multiplication. */
  predicate Cheaper(a: Listing, b: Listing)
    requires a.quantity != 0 && b.quantity != 0
  {
    Num(a) * Den(b) < Num(b) * Den(a)
  }

  lemma UnitPriceFraction(l: Listing)
    requires l.quantity != 0
    ensures Den(l) > 0
    ensures UnitPrice(l) == Num(l) as real / Den(l) as real
  {
    if l.quantity < 0 {
      var p, q := l.priceAmount as real, l.quantity as real;
      assert (-p) / (-q) == p / q;
    }
  }

  /** The integer comparison is the comparison of the exact unit prices. */
  lemma CheaperIsUnitPriceLess(a: Listing, b: Listing)
    requires a.quantity != 0 && b.quantity != 0
    ensures Cheaper(a, b) <==> UnitPrice(a) < UnitPrice(b)
  {
    UnitPriceFraction(a);
    UnitPriceFraction(b);
    CrossLess(Num(a) as real, Den(a) as real, Num(b) as real, Den(b) as real);
    IntProduct(Num(a), Den(b));
    IntProduct(Num(b), Den(a));
  }

  /** Comparing two fractions with positive denominators by cross-multiplying. */
  lemma CrossLess(na: real, da: real, nb: real, db: real)
    requires da > 0.0 && db > 0.0
    ensures na * db < nb * da <==> na / da < nb / db
  {
    var x, y, p := na / da, nb / db, da * db;
    assert na * db == x * p by {
      assert na == x * da;
    }
    assert nb * da == y * p by {
      assert nb == y * db;
    }
    ScaleLess(x, y, p);
  }

  /** Multiplying by a positive number keeps the order. */
  lemma ScaleLess(x: real, y: real, p: real)
    requires p > 0.0
    ensures x * p < y * p <==> x < y
  {
    assert y * p - x * p == (y - x) * p;
  }

  /** A product of integers, taken as a real, is the product of the reals. */
  lemma IntProduct(m: int, n: int)
    ensures (m * n) as real == m as real * n as real
  {
  }

  /**
   * `min(g, key=unit price)`: the position of the first listing whose unit
   * price no other listing undercuts. Python's `min` walks the list and
   * replaces its candidate only on a strictly smaller key.
   */
  function CheapestIndex(g: seq<Listing>): (r: nat)
    requires g != [] && Priced(g)
    ensures r < |g|
    ensures forall j :: 0 <= j < |g| ==> UnitPrice(g[r]) <= UnitPrice(g[j])
    ensures forall j :: 0 <= j < r ==> UnitPrice(g[r]) < UnitPrice(g[j])
    decreases |g|
  {
    if |g| == 1 then 0
    else
      var init := g[..|g| - 1];
      var last := g[|g| - 1];
      assert g == init + [last];
      var b := CheapestIndex(init);
      CheaperIsUnitPriceLess(last, g[b]);
      if Cheaper(last, g[b]) then |g| - 1 else b
  }

  function Cheapest(g: seq<Listing>): (c: Listing)
    requires g != [] && Priced(g)
    ensures c in g
  {
    g[CheapestIndex(g)]
  }

  function Abs(x: int): nat {
    if x < 0 then -x else x
  }

  /**
   * `n / d` rounded to an integer, a tie going to the even neighbour (the
   * rounding of the `.2f` format when the quotient is exact).
   */
  function RoundHalfEven(n: nat, d: nat): nat
    requires d > 0
  {
    var q, rem := n / d, n % d;
    if 2 * rem > d || (2 * rem == d && q % 2 == 1) then q + 1 else q
  }

  /** The rounded value is a nearest integer to `n / d`, and the even one on a tie. */
  lemma RoundHalfEvenNearest(n: nat, d: nat)
    requires d > 0
    ensures var h := RoundHalfEven(n, d);
      && 2 * Abs(h * d - n) <= d
      && (2 * Abs(h * d - n) == d ==> h % 2 == 0)
  {
    var q, rem := n / d, n % d;
    if 2 * rem > d || (2 * rem == d && q % 2 == 1) {
      RoundUpDistance(n, d);
    } else {
      RoundDownDistance(n, d);
    }
  }

  lemma RoundDownDistance(n: nat, d: nat)
    requires d > 0
    ensures (n / d) * d - n == -(n % d)
  {
  }

  lemma RoundUpDistance(n: nat, d: nat)
    requires d > 0
    ensures (n / d + 1) * d - n == d - n % d
  {
    RoundDownDistance(n, d);
    assert (n / d + 1) * d == (n / d) * d + d;
  }

  /** The magnitude of the unit price in hundredths, as `.2f` rounds it. */
  function Hundredths(l: Listing): nat
    requires l.quantity != 0
  {
    RoundHalfEven(Abs(l.priceAmount) * 100, Abs(l.quantity))
  }

  /**
   * The float quotient carries a minus sign when exactly one operand is
   * negative; `0 / -5` is `-0.0`, which `.2f` writes as `-0.00`.
   */
  predicate Negative(l: Listing) {
    (l.priceAmount < 0) != (l.quantity < 0)
  }

  function Sign(l: Listing): string {
    if Negative(l) then "-" else ""
  }

  /** `f"{ppu:.2f}"` */
  function FixedTwo(l: Listing): string
    requires l.quantity != 0
  {
    var h := Hundredths(l);
    Sign(l) + NatToString(h / 100) + "." + [DigitChar(h % 100 / 10), DigitChar(h % 10)]
  }

  /** `f"{ppu:.2f}".rstrip('0').rstrip('.')` */
  function PriceText(l: Listing): (r: string)
    requires l.quantity != 0
    ensures r == [] || r[|r| - 1] != '.'
  {
    RStripChar(RStripChar(FixedTwo(l), '0'), '.')
  }

  /**
   * The price string is the sign, the whole part, and then the fraction
   * without trailing zeros: nothing for a whole number, one digit for whole
   * tenths, two digits otherwise.
   */
  lemma PriceTextShape(l: Listing)
    requires l.quantity != 0
    ensures var h := Hundredths(l);
      PriceText(l) == Sign(l) + NatToString(h / 100)
        + (if h % 100 == 0 then ""
           else if h % 10 == 0 then "." + [DigitChar(h % 100 / 10)]
           else "." + [DigitChar(h % 100 / 10), DigitChar(h % 10)])
  {
    var h := Hundredths(l);
    var w := Sign(l) + NatToString(h / 100);
    var c1, c2 := DigitChar(h % 100 / 10), DigitChar(h % 10);
    assert FixedTwo(l) == w + ['.', c1, c2];
    assert w != [] && w[|w| - 1] != '.' by {
      var digits := NatToString(h / 100);
      assert digits[|digits| - 1] in digits;
      assert w[|w| - 1] == digits[|digits| - 1];
    }
    FractionDigits(h);
    assert "." + [c1] == ['.', c1] && "." + [c1, c2] == ['.', c1, c2];
    StripFraction(w, c1, c2, '.', '0');
  }

  /** The two fraction digits of `h` hundredths are zero exactly when the tenths, or the whole fraction, are whole. */
  lemma FractionDigits(h: nat)
    ensures (h % 10 == 0) == (DigitChar(h % 10) == '0')
    ensures (h % 100 == 0) == (DigitChar(h % 100 / 10) == '0' && DigitChar(h % 10) == '0')
  {
    DigitCharZero(h % 10);
    DigitCharZero(h % 100 / 10);
    FractionZeros(h);
  }

  lemma FractionZeros(h: nat)
    ensures h % 100 == 0 <==> h % 100 / 10 == 0 && h % 10 == 0
  {
    var a, r := h / 100, h % 100;
    var b, c := r / 10, r % 10;
    LastDigit(r, b, c);
    LastDigit(h, 10 * a + b, c);
  }

  /** The last decimal digit of `10 * m + c` is `c`. */
  lemma LastDigit(h: int, m: int, c: int)
    requires h == 10 * m + c && 0 <= c < 10
    ensures h % 10 == c && h / 10 == m
  {
  }

  lemma DigitCharZero(d: nat)
    requires d < 10
    ensures DigitChar(d) == '0' <==> d == 0
  {
  }

  /**
   * Stripping `w.dd` of trailing zeros and then of a trailing point, where
   * neither `w` nor the digits end in a point: zeros of the fraction go, and a
   * bare point with them. Stated for any point and zero characters.
   */
  lemma StripFraction(w: string, c1: char, c2: char, pt: char, z: char)
    requires pt != z && c1 != pt && c2 != pt
    requires w != [] && w[|w| - 1] != pt
    ensures RStripChar(RStripChar(w + [pt, c1, c2], z), pt)
      == w + (if c1 == z && c2 == z then []
              else if c2 == z then [pt, c1]
              else [pt, c1, c2])
  {
    assert w + [pt, c1, c2] == w + [pt, c1] + [c2];
    if c2 != z {
      RStripCharKeeps(w + [pt, c1] + [c2], z);
      RStripCharKeeps(w + [pt, c1] + [c2], pt);
    } else if c1 != z {
      StripToTenths(w, c1, pt, z);
    } else {
      StripToWhole(w, pt, z);
    }
  }

  /** `w.d0` loses its last zero and nothing more. */
  lemma StripToTenths(w: string, c1: char, pt: char, z: char)
    requires c1 != pt && c1 != z
    ensures RStripChar(RStripChar(w + [pt, c1] + [z], z), pt) == w + [pt, c1]
  {
    RStripCharDrops(w + [pt, c1], z);
    RStripCharKeeps(w + [pt, c1], z);
    RStripCharKeeps(w + [pt, c1], pt);
  }

  /** `w.00` loses both zeros and then the point. */
  lemma StripToWhole(w: string, pt: char, z: char)
    requires pt != z
    requires w != [] && w[|w| - 1] != pt
    ensures RStripChar(RStripChar(w + [pt, z] + [z], z), pt) == w
  {
    assert w + [pt, z] == w + [pt] + [z];
    RStripCharDrops(w + [pt, z], z);
    RStripCharDrops(w + [pt], z);
    RStripCharKeeps(w + [pt], z);
    RStripCharDrops(w, pt);
    RStripCharKeeps(w, pt);
  }

  /** A whole unit price prints without a fraction, e.g. 128 for 64 prints as `2`. */
  lemma PriceTextWhole(l: Listing)
    requires l.quantity > 0 && l.priceAmount >= 0 && l.priceAmount % l.quantity == 0
    ensures PriceText(l) == NatToString(l.priceAmount / l.quantity)
  {
    var p, q := l.priceAmount, l.quantity;
    var k := p / q;
    assert p * 100 == (k * 100) * q by {
      assert p == k * q;
    }
    assert Hundredths(l) == k * 100 by {
      ExactQuotient(k * 100, q);
      assert Abs(p) * 100 == (k * 100) * q;
      assert Abs(q) == q;
    }
    assert (k * 100) / 100 == k && (k * 100) % 100 == 0;
    PriceTextShape(l);
    assert Sign(l) == "";
  }

  /** A multiple of `q` divides by `q` exactly. */
  lemma ExactQuotient(m: nat, q: nat)
    requires q > 0
    ensures (m * q) / q == m && (m * q) % q == 0
  {
    var n := m * q;
    var x := n / q - m;
    assert x * q == -(n % q) by {
      assert n == (n / q) * q + n % q;
      assert (n / q) * q - m * q == (n / q - m) * q;
    }
    if x != 0 {
      NonZeroMultiple(x, q);
    }
  }

  lemma NonZeroMultiple(x: int, q: nat)
    requires x != 0 && q > 0
    ensures Abs(x * q) >= q
  {
    if x > 0 {
      assert x * q == (x - 1) * q + q;
    } else {
      assert -(x * q) == (-x - 1) * q + q;
    }
  }

  /** The help text's example, 64 diamonds for 128 iron ingots, shows a unit price of `2`. */
  lemma PriceTextHelpExample(sellerId: string, sellerName: string, timestamp: string)
    ensures PriceText(Listing(sellerId, sellerName, "diamond", 64, "iron_ingot", 128, timestamp)) == "2"
  {
    PriceTextWhole(Listing(sellerId, sellerName, "diamond", 64, "iron_ingot", 128, timestamp));
    assert NatToString(2) == "2";
  }

  /** `item_name.replace('_', ' ').title()` */
  function DisplayName(item: string): (r: string)
    ensures |r| == |item|
  {
    Title(ReplaceChar(item, '_', ' '))
  }

  /** The displayed name has a space for each underscore and title case everywhere else. */
  lemma DisplayNameAt(item: string, i: nat)
    requires i < |item|
    ensures item[i] == '_' ==> DisplayName(item)[i] == ' '
    ensures item[i] != '_' && (i == 0 || !IsLetter(item[i - 1])) ==> DisplayName(item)[i] == UpperChar(item[i])
    ensures item[i] != '_' && i > 0 && IsLetter(item[i - 1]) ==> DisplayName(item)[i] == LowerChar(item[i])
  {
    var s := ReplaceChar(item, '_', ' ');
    TitleAt(s, i);
    if i > 0 {
      assert IsLetter(s[i - 1]) <==> IsLetter(item[i - 1]);
    }
  }

  const Bullet := "  \U{2022} "

  /** The first line of an item's entry: its display name, in bold behind the arrow emoji. */
  function NameLine(item: string): string {
    "**<:arrow:1185568475253891152> " + DisplayName(item) + "**\n"
  }

  /** The second line: the cheapest listing's unit price, currency and seller. */
  function CheapestLine(c: Listing): string
    requires c.quantity != 0
  {
    Bullet + "**Cheapest:** `" + PriceText(c) + " " + c.priceItem + "` per unit (Sold by `" + c.sellerName + "`)\n"
  }

  /** The last line: the number of listings of the item. */
  function CountLine(n: nat): string {
    Bullet + "**Total Listings:** `" + IntToString(n) + "`"
  }

  /** One item's entry on the board. */
  function Block(item: string, g: seq<Listing>): string
    requires g != [] && Priced(g)
  {
    NameLine(item) + CheapestLine(Cheapest(g)) + CountLine(|g|)
  }

  /**
   * An entry opens with the item's display name and closes with the size of
   * its group, written so that `int()` reads it back.
   */
  lemma BlockLines(item: string, g: seq<Listing>)
    requires g != [] && Priced(g)
    ensures var b, n, c := Block(item, g), NameLine(item), CountLine(|g|);
      && b[..|n|] == n
      && b[|b| - |c|..] == c
      && c[|c| - |IntToString(|g|)| - 1..|c| - 1] == IntToString(|g|)
      && ParseInt(c[|c| - |IntToString(|g|)| - 1..|c| - 1]) == Some(|g|)
  {
    var n, m, c := NameLine(item), CheapestLine(Cheapest(g)), CountLine(|g|);
    var b := Block(item, g);
    assert b == n + (m + c);
    var prefix := Bullet + "**Total Listings:** `";
    assert c == prefix + IntToString(|g|) + "`";
  }

  /** The text shown when there are no listings. */
  const EmptyMarket := "The market is currently empty! DM me to list your items."

  /** `sorted(grouped_items.keys())` */
  function SortedItems(ls: seq<Listing>): (r: seq<string>)
    ensures StrictlyAscending(r)
    ensures forall n :: n in r <==> n in ItemNames(ls)
  {
    SortedKeysSameKeys(Names(ls));
    NamesMembers(ls);
    SortedKeys(Names(ls))
  }

  /**
   * The order of the board does not depend on the order in which the items were
   * first listed: any duplicate-free list of the same names sorts the same way.
   */
  lemma SortedItemsOfAnyOrder(ls: seq<Listing>, names: seq<string>)
    requires NoDuplicates(names)
    requires forall n :: n in names <==> n in ItemNames(ls)
    ensures SortedKeys(names) == SortedItems(ls)
  {
    SortedKeysSameKeys(names);
    AscendingUnique(SortedKeys(names), SortedItems(ls));
  }

  /** Every listed item's group is non-empty and priced when the whole ledger is. */
  lemma GroupPriced(ls: seq<Listing>, item: string)
    requires Priced(ls) && item in ItemNames(ls)
    ensures Group(ls, item) != [] && Priced(Group(ls, item))
  {
    GroupNonEmpty(ls, item);
    GroupMembers(ls, item);
  }

  /**
   * The listing an item's entry shows is a listing of that item, and no
   * listing of the item is cheaper per unit.
   */
  lemma CheapestOfItem(ls: seq<Listing>, item: string)
    requires Priced(ls) && item in ItemNames(ls)
    ensures Group(ls, item) != [] && Priced(Group(ls, item))
    ensures var c := Cheapest(Group(ls, item));
      && c in ls && c.itemName == item
      && forall l | l in ls && l.itemName == item :: UnitPrice(c) <= UnitPrice(l)
  {
    GroupPriced(ls, item);
    GroupMembers(ls, item);
    var g := Group(ls, item);
    forall l | l in ls && l.itemName == item ensures UnitPrice(Cheapest(g)) <= UnitPrice(l) {
      assert l in g;
      var j :| 0 <= j < |g| && g[j] == l;
    }
  }

  /** Each of the items has a non-empty group whose unit prices can all be computed. */
  predicate GroupsPriced(ls: seq<Listing>, items: seq<string>) {
    forall n | n in items :: Group(ls, n) != [] && Priced(Group(ls, n))
  }

  lemma AllGroupsPriced(ls: seq<Listing>, items: seq<string>)
    requires Priced(ls) && forall n | n in items :: n in ItemNames(ls)
    ensures GroupsPriced(ls, items)
  {
    forall n | n in items ensures Group(ls, n) != [] && Priced(Group(ls, n)) {
      GroupPriced(ls, n);
    }
  }

  /** The entries of the given items, in that order. */
  function Blocks(items: seq<string>, ls: seq<Listing>): (bs: seq<string>)
    requires GroupsPriced(ls, items)
    ensures |bs| == |items|
  {
    seq(|items|, k requires 0 <= k < |items| => Block(items[k], Group(ls, items[k])))
  }

  /** The entries of one more item are the earlier entries followed by that item's. */
  lemma BlocksAppend(items: seq<string>, ls: seq<Listing>, item: string)
    requires GroupsPriced(ls, items) && Group(ls, item) != [] && Priced(Group(ls, item))
    ensures GroupsPriced(ls, items + [item])
    ensures Blocks(items + [item], ls) == Blocks(items, ls) + [Block(item, Group(ls, item))]
  {
    var longer := items + [item];
    assert GroupsPriced(ls, longer) by {
      forall n | n in longer ensures Group(ls, n) != [] && Priced(Group(ls, n)) {
        if n != item {
          assert n in items;
        }
      }
    }
    var bs, shorter := Blocks(longer, ls), Blocks(items, ls) + [Block(item, Group(ls, item))];
    forall k | 0 <= k < |longer| ensures bs[k] == shorter[k] {
      if k < |items| {
        assert longer[k] == items[k];
        assert shorter[k] == Blocks(items, ls)[k];
      } else {
        assert longer[k] == item;
      }
    }
  }

  /**
   * The board body: `None` where computing a unit price raises (a zero
   * quantity, or a quotient beyond the double range), the placeholder for an
   * empty ledger, otherwise the
   * entries of the sorted items separated by blank lines.
   */
  function BoardBody(ls: seq<Listing>): (r: Option<string>)
    ensures r.None? <==> !Priced(ls)
    ensures ls == [] ==> r == Some(EmptyMarket)
  {
    if !Priced(ls) then None
    else if ls == [] then Some(EmptyMarket)
    else
      AllGroupsPriced(ls, SortedItems(ls));
      Some(JoinWith("\n\n", Blocks(SortedItems(ls), ls)))
  }

  /** A non-empty board has one entry per distinct item: the entries of the items in sorted order. */
  lemma BoardBodyEntries(ls: seq<Listing>)
    requires Priced(ls) && ls != []
    ensures GroupsPriced(ls, SortedItems(ls))
    ensures |SortedItems(ls)| == |ItemNames(ls)|
    ensures BoardBody(ls) == Some(JoinWith("\n\n", Blocks(SortedItems(ls), ls)))
  {
    AllGroupsPriced(ls, SortedItems(ls));
    SortedKeysSameKeys(Names(ls));
    NamesMembers(ls);
    DistinctCardinality(Names(ls), ItemNames(ls));
  }

  /** A duplicate-free list has as many entries as the set of its elements. */
  lemma {:induction false} DistinctCardinality(s: seq<string>, t: set<string>)
    requires NoDuplicates(s)
    requires forall n :: n in s <==> n in t
    ensures |s| == |t|
    decreases |s|
  {
    if s != [] {
      var x := s[|s| - 1];
      var init := s[..|s| - 1];
      assert s == init + [x];
      assert x !in init;
      forall n ensures n in init <==> n in t - {x} {
        if n in init {
          var i :| 0 <= i < |init| && init[i] == n;
          assert s[i] == n;
        }
      }
      DistinctCardinality(init, t - {x});
    } else {
      assert t == {};
    }
  }

  /** Entries built for every sorted item, each from a priced group, are the board body. */
  lemma EntriesMakeBody(ls: seq<Listing>, parts: seq<string>)
    requires ls != [] && GroupsPriced(ls, SortedItems(ls))
    requires parts == Blocks(SortedItems(ls), ls)
    ensures BoardBody(ls) == Some(JoinWith("\n\n", parts))
  {
    PricedFromGroups(ls, SortedItems(ls));
  }

  /** A ledger whose every item has a priced group is priced. */
  lemma PricedFromGroups(ls: seq<Listing>, items: seq<string>)
    requires forall n :: n in items <==> n in ItemNames(ls)
    requires GroupsPriced(ls, items)
    ensures Priced(ls)
  {
    forall l | l in ls ensures Divisible(l) {
      assert l.itemName in ItemNames(ls);
      GroupMembers(ls, l.itemName);
    }
  }

  /**
   * The loop over the sorted items: one entry per item from its group; a
   * listing whose unit price cannot be computed stops the loop with `None`,
   * as `min` would raise on it.
   */
  method RenderEntries(ls: seq<Listing>, groups: map<string, seq<Listing>>, items: seq<string>) returns (parts: Option<seq<string>>)
    requires forall item | item in groups :: groups[item] == Group(ls, item)
    requires forall n | n in items :: n in groups && n in ItemNames(ls)
    ensures parts.None? ==> !Priced(ls)
    ensures parts.Some? ==> GroupsPriced(ls, items) && parts.value == Blocks(items, ls)
  {
    var entries: seq<string> := [];
    for i := 0 to |items|
      invariant GroupsPriced(ls, items[..i])
      invariant entries == Blocks(items[..i], ls)
    {
      var item := items[i];
      assert items[..i + 1] == items[..i] + [item];
      var g := groups[item];
      GroupMembers(ls, item);
      if exists l: Listing | l in g :: !Divisible(l) {
        return None;
      }
      GroupNonEmpty(ls, item);
      BlocksAppend(items[..i], ls, item);
      entries := entries + [Block(item, g)];
    }
    assert items[..|items|] == items;
    return Some(entries);
  }

  /**
   * The rendering of `update_market_board`: group the ledger, then the
   * placeholder for an empty ledger or the entries of the sorted items joined
   * by blank lines.
   */
  method RenderBody(ls: seq<Listing>) returns (body: Option<string>)
    ensures body == BoardBody(ls)
  {
    var groups, keys := GroupByItem(ls);
    var parts: seq<string>;
    if |keys| == 0 {
      NamesEmpty(ls);
      parts := [EmptyMarket];
    } else {
      NamesEmpty(ls);
      var items := SortedKeys(keys);
      NamesMembers(ls);
      SortedKeysSameKeys(keys);
      var entries := RenderEntries(ls, groups, items);
      if entries.None? {
        return None;
      }
      parts := entries.value;
      EntriesMakeBody(ls, parts);
    }
    body := Some(JoinWith("\n\n", parts));
  }
}
