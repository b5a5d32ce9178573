/**
 * Listing extraction (Produtos_organizado.py): the title and the price of a
 * search-result element, each taken from the first CSS selector of a fixed
 * list that is found and has text, with a fallback on the element's own text;
 * and coletar_produtos, which keeps the first N elements in document order.
 *
 * A live web element is replaced by a record. `found` maps a selector to the
 * outcome of find_element for it: an absent key is the exception the code
 * swallows, Some(t) a sub-element whose text is t, and None a sub-element
 * whose text could not be read (that exception is swallowed too).
 */
module Listing {
  import opened Wrappers
  import opened Text
  import opened PriceScan

  datatype Element = Element(text: string, found: map<string, Option<string>>)

  /** One record of the result list: {'Produto': title, 'Preco': price}. */
  datatype Product = Product(title: string, price: string)

  const TitleSelectors: seq<string> := [".ui-search-item__title", "h2", "a"]
  const PriceSelectors: seq<string> :=
    [".ui-search-price__part", ".price-tag-fraction", ".andes-money-amount__fraction"]

  /** The selector is found in `e` and its text is non-empty after strip. */
  predicate Hit(e: Element, sel: string) {
    sel in e.found && e.found[sel].Some? && Strip(e.found[sel].value) != ""
  }

  /** What a winning selector contributes: its text, stripped. */
  function HitText(e: Element, sel: string): string
    requires Hit(e, sel)
  {
    Strip(e.found[sel].value)
  }

  /** The position of the first selector of `sels` that wins, or |sels| when none does. */
  function FirstHit(e: Element, sels: seq<string>): (k: nat)
    ensures k <= |sels|
    ensures forall j :: 0 <= j < k ==> !Hit(e, sels[j])
    ensures k < |sels| ==> Hit(e, sels[k])
  {
    if sels == [] then 0
    else if Hit(e, sels[0]) then 0
    else 1 + FirstHit(e, sels[1..])
  }

  /** The selector loop of extrair_titulo and extrair_preco_elemento: the winning text, if any. */
  function Cascade(e: Element, sels: seq<string>): Option<string> {
    var k := FirstHit(e, sels);
    if k < |sels| then Some(HitText(e, sels[k])) else None
  }

  /** extrair_titulo. */
  function Title(e: Element): (t: string)
    ensures t != [] ==> !IsSpace(t[0]) && !IsSpace(t[|t| - 1])
  {
    match Cascade(e, TitleSelectors)
    case Some(t) => t
    case None => Strip(FirstLine(e.text))
  }

  /** extrair_preco_elemento. */
  function ElementPrice(e: Element): string {
    match Cascade(e, PriceSelectors)
    case Some(p) => p
    case None => ExtractPrice(e.text)
  }

  /**
   * The cascade yields nothing exactly when no selector of the list wins, and
   * what it yields is non-empty text without whitespace at either end.
   */
  lemma CascadeNone(e: Element, sels: seq<string>)
    ensures Cascade(e, sels).None? <==> forall j :: 0 <= j < |sels| ==> !Hit(e, sels[j])
    ensures Cascade(e, sels).Some? ==>
              var t := Cascade(e, sels).value; t != [] && !IsSpace(t[0]) && !IsSpace(t[|t| - 1])
  {
  }

  /** A winning selector decides the cascade as long as no earlier one wins; later ones do not matter. */
  lemma CascadeFirstWins(e: Element, sels: seq<string>, k: nat)
    requires k < |sels| && Hit(e, sels[k])
    requires forall j :: 0 <= j < k ==> !Hit(e, sels[j])
    ensures Cascade(e, sels) == Some(HitText(e, sels[k]))
  {
  }

  /**
   * extrair_titulo tries '.ui-search-item__title', 'h2' and 'a' in that order
   * and returns the stripped text of the first that is found with text; with
   * none, the first line of the element's text, stripped.
   */
  lemma {:induction false} TitleCascade(e: Element)
    ensures Hit(e, ".ui-search-item__title") ==>
              Title(e) == HitText(e, ".ui-search-item__title")
    ensures !Hit(e, ".ui-search-item__title") && Hit(e, "h2") ==>
              Title(e) == HitText(e, "h2")
    ensures !Hit(e, ".ui-search-item__title") && !Hit(e, "h2") && Hit(e, "a") ==>
              Title(e) == HitText(e, "a")
    ensures !Hit(e, ".ui-search-item__title") && !Hit(e, "h2") && !Hit(e, "a") ==>
              Title(e) == Strip(FirstLine(e.text))
  {
    var sels := TitleSelectors;
    if Hit(e, sels[0]) {
      CascadeFirstWins(e, sels, 0);
    } else if Hit(e, sels[1]) {
      CascadeFirstWins(e, sels, 1);
    } else if Hit(e, sels[2]) {
      CascadeFirstWins(e, sels, 2);
    } else {
      CascadeNone(e, sels);
    }
  }

  /** With no title selector winning, the title is a stripped piece of the first line of the text. */
  lemma TitleFallbackShape(e: Element)
    requires Cascade(e, TitleSelectors).None?
    ensures '\n' !in Title(e)
    ensures exists i, j :: 0 <= i <= j <= |e.text| && Title(e) == e.text[i..j]
  {
    var line := FirstLine(e.text);
    var i, j :| 0 <= i <= j <= |line| && Strip(line) == line[i..j];
    assert line[i..j] == e.text[i..j];
  }

  /**
   * extrair_preco_elemento tries '.ui-search-price__part', '.price-tag-fraction'
   * and '.andes-money-amount__fraction' in that order; with none winning it
   * gives extrair_preco of the element's whole text.
   */
  lemma {:induction false} PriceCascade(e: Element)
    ensures Hit(e, ".ui-search-price__part") ==>
              ElementPrice(e) == HitText(e, ".ui-search-price__part")
    ensures !Hit(e, ".ui-search-price__part") && Hit(e, ".price-tag-fraction") ==>
              ElementPrice(e) == HitText(e, ".price-tag-fraction")
    ensures !Hit(e, ".ui-search-price__part") && !Hit(e, ".price-tag-fraction")
              && Hit(e, ".andes-money-amount__fraction") ==>
              ElementPrice(e) == HitText(e, ".andes-money-amount__fraction")
    ensures !Hit(e, ".ui-search-price__part") && !Hit(e, ".price-tag-fraction")
              && !Hit(e, ".andes-money-amount__fraction") ==>
              ElementPrice(e) == ExtractPrice(e.text)
  {
    var sels := PriceSelectors;
    if Hit(e, sels[0]) {
      CascadeFirstWins(e, sels, 0);
    } else if Hit(e, sels[1]) {
      CascadeFirstWins(e, sels, 1);
    } else if Hit(e, sels[2]) {
      CascadeFirstWins(e, sels, 2);
    } else {
      CascadeNone(e, sels);
    }
  }

  /** The price is '' only when no price selector wins and the element's text holds no "R$" price either. */
  lemma ElementPriceEmpty(e: Element)
    ensures ElementPrice(e) == "" <==>
              Cascade(e, PriceSelectors).None? && forall i: nat, m: nat, k: nat :: !PriceAt(e.text, i, m, k)
  {
    CascadeNone(e, PriceSelectors);
    ExtractPriceEmpty(e.text);
  }

  /** How many elements elementos[:n] keeps, with Python's slice rules (a negative n counts from the end). */
  function SliceLength(n: int, len: nat): (r: nat)
    ensures r <= len
  {
    if 0 <= n then (if n <= len then n else len)
    else if -n <= len then len + n else 0
  }

  /**
   * coletar_produtos over the elements the page lists: one product per kept
   * element, in document order, with its title and price.
   */
  method CollectProducts(elements: seq<Element>, maxItems: int) returns (products: seq<Product>)
    ensures 0 <= maxItems ==>
              |products| == if maxItems <= |elements| then maxItems else |elements|
    ensures maxItems < 0 ==>
              |products| == if -maxItems <= |elements| then |elements| + maxItems else 0
    ensures forall i :: 0 <= i < |products| ==>
              products[i] == Product(Title(elements[i]), ElementPrice(elements[i]))
  {
    var kept := elements[..SliceLength(maxItems, |elements|)];
    products := [];
    for i := 0 to |kept|
      invariant |products| == i
      invariant forall j :: 0 <= j < i ==>
                  products[j] == Product(Title(kept[j]), ElementPrice(kept[j]))
    {
      var title := Title(kept[i]);
      var price := ElementPrice(kept[i]);
      ghost var done := products;
      products := products + [Product(title, price)];
      assert products[..i] == done && products[i] == Product(title, price);
    }
  }
}
