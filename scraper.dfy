/**
 * The listing side of the scraper (`PropertyScraper` in main.py): each
 * listing card becomes a `{link, price, address}` record, appended to the
 * scraper's record list, which is never cleared.
 *
 * Finding the cards in the page (the HTML parser and its class-name
 * matching) is not modelled: a card is given by the three raw strings the
 * parser would hand back, each absent when its element is missing.
 */
module Scraper {
  import opened Wrappers
  import opened Text

  /** The sentinel stored when an element is missing. */
  const NotAvailable: string := "N/A"

  /** One listing card: the anchor's href, the price line's text, the address element's text. */
  datatype Card = Card(href: Option<string>, priceText: Option<string>, addressText: Option<string>)

  /** One scraped listing. */
  datatype PropertyRecord = PropertyRecord(link: string, price: string, address: string)

  /** Index of the first `'+'` or `'/'` in `s`, or `|s|` when there is neither. */
  function PriceEnd(s: string): (k: nat)
    ensures k <= |s|
  {
    if s == [] || s[0] == '+' || s[0] == '/' then 0 else 1 + PriceEnd(s[1..])
  }

  /** `PriceEnd` stops at the first `'+'` or `'/'` and at nothing else. */
  lemma {:induction false} PriceEndSpec(s: string)
    ensures forall j :: 0 <= j < PriceEnd(s) ==> s[j] != '+' && s[j] != '/'
    ensures PriceEnd(s) < |s| ==> s[PriceEnd(s)] == '+' || s[PriceEnd(s)] == '/'
  {
    if s != [] && s[0] != '+' && s[0] != '/' {
      PriceEndSpec(s[1..]);
    }
  }

  /** The price text cut at the first `'+'`, then at the first `'/'`, then stripped. */
  function CleanPrice(raw: string): (r: string)
    ensures |r| <= |raw|
  {
    Strip(Before(Before(raw, '+'), '/'))
  }

  /** A character that `Strip` keeps was in its argument. */
  lemma StripKeeps(s: string, c: char)
    requires c in Strip(s)
    ensures c in s
  {
    StripSpec(s);
    assert multiset(Strip(s))[c] > 0;
  }

  /** Cutting at `'+'` and then at `'/'` is cutting at whichever of the two comes first. */
  lemma PriceCut(raw: string)
    ensures Before(Before(raw, '+'), '/') == raw[..PriceEnd(raw)]
  {
    var p := Before(raw, '+');
    var q := Before(p, '/');
    BeforeSpec(raw, '+');
    BeforeSpec(p, '/');
    PriceEndSpec(raw);
    assert forall j :: 0 <= j < |q| ==> raw[j] != '+' && raw[j] != '/' by {
      forall j | 0 <= j < |q| ensures raw[j] != '+' && raw[j] != '/' {
        assert raw[j] == p[j] == q[j];
      }
    }
    assert |q| < |raw| ==> raw[|q|] == '+' || raw[|q|] == '/' by {
      if |q| < |p| {
        assert p[|q|] == '/';
      } else if |p| < |raw| {
        assert raw[|p|] == '+';
      }
    }
  }

  /**
   * The cleaned price is the stripped text before the first `'+'` or
   * `'/'`, so it holds neither marker.
   */
  lemma CleanPriceSpec(raw: string)
    ensures CleanPrice(raw) == Strip(raw[..PriceEnd(raw)])
    ensures '+' !in CleanPrice(raw) && '/' !in CleanPrice(raw)
  {
    PriceCut(raw);
    PriceEndSpec(raw);
    var q := raw[..PriceEnd(raw)];
    assert '+' !in q && '/' !in q;
    if '+' in CleanPrice(raw) {
      StripKeeps(q, '+');
    }
    if '/' in CleanPrice(raw) {
      StripKeeps(q, '/');
    }
  }

  /** The address text stripped, then with every `'|'` deleted. */
  function CleanAddress(raw: string): (r: string)
    ensures |r| <= |raw|
  {
    DeleteAll(Strip(raw), '|')
  }

  /** The cleaned address holds no `'|'` and otherwise exactly the characters the stripped text holds. */
  lemma CleanAddressSpec(raw: string)
    ensures '|' !in CleanAddress(raw)
    ensures multiset(CleanAddress(raw)) == multiset(Strip(raw))['|' := 0]
  {
    DeleteAllSpec(Strip(raw), '|');
  }

  /** The record one card yields. */
  function ExtractRecord(card: Card): (r: PropertyRecord)
  {
    var link := card.href.GetOr(NotAvailable);
    var price := CleanPrice(card.priceText.GetOr(NotAvailable));
    var address := CleanAddress(card.addressText.GetOr(NotAvailable));
    PropertyRecord(link, price, address)
  }

  /**
   * Each element present is cleaned on its own: the href as it is, the
   * price text cut before any `'+'` or `'/'` and stripped, the address
   * stripped and without `'|'`. Whatever is missing, the price holds
   * neither marker and the address no bar.
   */
  lemma ExtractRecordSpec(card: Card)
    ensures card.href.Some? ==> ExtractRecord(card).link == card.href.value
    ensures card.priceText.Some? ==>
              ExtractRecord(card).price == Strip(card.priceText.value[..PriceEnd(card.priceText.value)])
    ensures '+' !in ExtractRecord(card).price && '/' !in ExtractRecord(card).price
    ensures '|' !in ExtractRecord(card).address
    ensures card.addressText.Some? ==>
              multiset(ExtractRecord(card).address) == multiset(Strip(card.addressText.value))['|' := 0]
  {
    CleanPriceSpec(card.priceText.GetOr(NotAvailable));
    CleanAddressSpec(card.addressText.GetOr(NotAvailable));
  }

  /** The sentinel as a price text: cut at its `'/'`, it leaves `"N"`. */
  lemma SentinelPrice()
    ensures CleanPrice(NotAvailable) == "N"
  {
    assert "N/A" == "N" + ['/'] + "A";
    assert '+' !in "N/A" && '/' !in "N";
    BeforeFirst("N/A", '+', []);
    BeforeFirst("N", '/', "A");
    StripUnique([], "N", []);
    assert [] + "N" + [] == "N";
  }

  /** The sentinel as an address text: it has no whitespace at its ends and no `'|'`, so it stays as it is. */
  lemma SentinelAddress()
    ensures CleanAddress(NotAvailable) == NotAvailable
  {
    StripUnique([], NotAvailable, []);
    assert [] + NotAvailable + [] == NotAvailable;
    assert '|' !in NotAvailable;
    DeleteAllAbsent(NotAvailable, '|');
  }

  /**
   * A missing element yields the sentinel, except for the price, where the
   * sentinel itself is cut at its `'/'`.
   */
  lemma MissingElementSentinels(card: Card)
    ensures card.href.None? ==> ExtractRecord(card).link == NotAvailable
    ensures card.priceText.None? ==> ExtractRecord(card).price == "N"
    ensures card.addressText.None? ==> ExtractRecord(card).address == NotAvailable
  {
    SentinelPrice();
    SentinelAddress();
  }

  /** The records of a list of cards, in card order. */
  function ExtractAll(cards: seq<Card>): (rs: seq<PropertyRecord>)
    ensures |rs| == |cards|
    ensures forall i :: 0 <= i < |cards| ==> rs[i] == ExtractRecord(cards[i])
  {
    if cards == [] then []
    else ExtractAll(cards[..|cards| - 1]) + [ExtractRecord(cards[|cards| - 1])]
  }

  /** A price line with a trailing `'+'`: the `'+'` and what follows it go. */
  lemma PlusPriceExample()
    ensures CleanPrice("$500,000+") == "$500,000"
  {
    var x := "$500,000";
    assert '+' !in x && '/' !in x;
    assert x + ['+'] + [] == "$500,000+";
    BeforeFirst(x, '+', []);
    BeforeFirst(x, '/', []);
    StripUnique([], x, []);
    assert [] + x + [] == x;
  }

  /**
   * Deleting the bar between two bar-free parts joins them as they are,
   * so the spaces written on both sides of the bar both remain.
   */
  lemma {:induction false} BarDeleted(x: string, y: string)
    requires '|' !in x && '|' !in y
    ensures DeleteAll(x + ['|'] + y, '|') == x + y
  {
    DeleteAllAppend(x, ['|'], '|');
    assert DeleteAll(['|'], '|') == [];
    DeleteAllAbsent(x, '|');
    assert DeleteAll(x + ['|'], '|') == x;
    DeleteAllAppend(x + ['|'], y, '|');
    DeleteAllAbsent(y, '|');
  }

  /** Stripping the example address removes only the outer spaces. */
  lemma BarAddressStripped()
    ensures Strip(" 1 Elm | Reno ") == "1 Elm | Reno"
  {
    var addr := "1 Elm | Reno";
    StripUnique(" ", addr, " ");
    assert " " + addr + " " == " 1 Elm | Reno ";
  }

  /** Deleting the bar of the example address keeps both spaces around it. */
  lemma BarAddressJoined()
    ensures DeleteAll("1 Elm | Reno", '|') == "1 Elm  Reno"
  {
    var x, y := "1 Elm ", " Reno";
    assert x + ['|'] + y == "1 Elm | Reno";
    assert '|' !in x;
    assert '|' !in y;
    BarDeleted(x, y);
    assert x + y == "1 Elm  Reno";
  }

  /** An address with a `'|'` separator: the bar goes, the spaces on both sides of it stay. */
  lemma BarAddressExample()
    ensures CleanAddress(" 1 Elm | Reno ") == "1 Elm  Reno"
  {
    BarAddressStripped();
    BarAddressJoined();
  }

  /** Extending the cards by one extends the records by that card's record. */
  lemma ExtractAllSnoc(cards: seq<Card>, i: nat)
    requires i < |cards|
    ensures ExtractAll(cards[..i + 1]) == ExtractAll(cards[..i]) + [ExtractRecord(cards[i])]
  {
    assert cards[..i + 1][..i] == cards[..i];
  }

  /** An address without a bar only loses its surrounding whitespace. */
  lemma PlainAddress(raw: string)
    requires '|' !in raw
    ensures CleanAddress(raw) == Strip(raw)
  {
    if '|' in Strip(raw) {
      StripKeeps(raw, '|');
    }
    DeleteAllAbsent(Strip(raw), '|');
  }

  /** A concrete bar-free address: the outer spaces go. */
  lemma PlainAddressExample()
    ensures CleanAddress(" 2 Elm Rd ") == "2 Elm Rd"
  {
    var addr := "2 Elm Rd";
    StripUnique(" ", addr, " ");
    assert " " + addr + " " == " 2 Elm Rd ";
    assert Strip(" 2 Elm Rd ") == addr;
    assert '|' !in addr;
    DeleteAllAbsent(addr, '|');
  }

  /** A card with every element present, and one whose price line is missing. */
  lemma TwoCardListing()
    ensures ExtractRecord(Card(Some("/home/1"), Some("$500,000+"), Some(" 1 Elm | Reno ")))
            == PropertyRecord("/home/1", "$500,000", "1 Elm  Reno")
    ensures ExtractRecord(Card(Some("/home/2"), None, Some(" 2 Elm Rd ")))
            == PropertyRecord("/home/2", "N", "2 Elm Rd")
  {
    PlusPriceExample();
    BarAddressExample();
    SentinelPrice();
    PlainAddressExample();
  }

  class PropertyScraper {
    const url: string
    /** Every record parsed so far, oldest first. */
    var properties: seq<PropertyRecord>

    constructor (url: string)
      ensures this.url == url && properties == []
    {
      this.url := url;
      properties := [];
    }

    /**
     * Appends one record per card, in card order, to whatever is stored
     * already; reports whether there was at least one card.
     */
    method ParseProperties(cards: seq<Card>) returns (ok: bool)
      modifies this
      ensures ok <==> cards != []
      ensures properties == old(properties) + ExtractAll(cards)
    {
      if cards == [] {
        return false;
      }
      var i := 0;
      while i < |cards|
        invariant 0 <= i <= |cards|
        invariant properties == old(properties) + ExtractAll(cards[..i])
      {
        ExtractAllSnoc(cards, i);
        properties := properties + [ExtractRecord(cards[i])];
        i := i + 1;
      }
      assert cards[..i] == cards;
      return true;
    }

    /**
     * One scraping run. `fetched` is what fetching the page produced
     * (`None` on a transport or HTTP error); `findCards` is the HTML
     * parser's card lookup.
     */
    method Scrape(fetched: Option<string>, findCards: string -> seq<Card>) returns (ok: bool, count: nat)
      modifies this
      ensures fetched.None? || fetched == Some("") ==> !ok && count == 0 && properties == old(properties)
      ensures fetched.Some? && fetched.value != "" ==>
                && ok == (findCards(fetched.value) != [])
                && properties == old(properties) + ExtractAll(findCards(fetched.value))
                && count == |properties|
    {
      if fetched.None? || fetched.value == "" {
        return false, 0;
      }
      ok := ParseProperties(findCards(fetched.value));
      count := |properties|;
    }

    /** The stored list itself. */
    method GetProperties() returns (ps: seq<PropertyRecord>)
      ensures ps == properties
    {
      ps := properties;
    }

    /**
     * Writes the records out; `written` is whether the file write went
     * through. Nothing is written, and false reported, when no record is stored.
     */
    method SaveToCsv(written: bool) returns (saved: bool)
      ensures saved <==> properties != [] && written
    {
      if properties == [] {
        return false;
      }
      saved := written;
    }
  }
}
