/**
 * extrair_preco (Produtos_organizado.py): the first match, from the left, of
 * the regular expression R\$\s*[\d\.,]+ in a text, or '' when there is none.
 *
 * The scanner below follows what Python's re.search does with this pattern:
 * it tries each start position in turn; at a position holding "R$" the greedy
 * \s* takes every whitespace character and the greedy [\d\.,]+ every digit,
 * '.' and ',' after them. Since no character is both whitespace and in the set,
 * backtracking never finds a different match.
 */
module PriceScan {
  import opened Wrappers
  import opened Text

  /** The class [\d\.,], with \d restricted to the ASCII digits. */
  predicate IsAmountChar(c: char) {
    '0' <= c <= '9' || c == '.' || c == ','
  }

  /** The end of the run of amount characters that starts at `i`. */
  function AmountRunEnd(s: string, i: nat): (j: nat)
    requires i <= |s|
    ensures i <= j <= |s|
    ensures forall k :: i <= k < j ==> IsAmountChar(s[k])
    ensures j == |s| || !IsAmountChar(s[j])
    decreases |s| - i
  {
    if i < |s| && IsAmountChar(s[i]) then AmountRunEnd(s, i + 1) else i
  }

  /** Where a match that starts at `i` ends, if one starts there. */
  function MatchEnd(s: string, i: nat): Option<nat>
    requires i <= |s|
  {
    if i + 2 <= |s| && s[i] == 'R' && s[i + 1] == '$' then
      var m := SpaceRunEnd(s, i + 2);
      var k := AmountRunEnd(s, m);
      if m < k then Some(k) else None
    else None
  }

  /** re.search from position `i` on: the text of the first match, or ''. */
  function SearchFrom(s: string, i: nat): string
    requires i <= |s|
    decreases |s| - i
  {
    if i == |s| then ""
    else match MatchEnd(s, i)
      case Some(k) => s[i..k]
      case None => SearchFrom(s, i + 1)
  }

  /** extrair_preco. */
  function ExtractPrice(text: string): string {
    SearchFrom(text, 0)
  }

  /**
   * The shape of a match, stated without the scanner: s[i..k] is "R$", then
   * whitespace up to `m`, then at least one amount character up to `k`, and the
   * character after it (if any) is not an amount character.
   */
  ghost predicate PriceAt(s: string, i: nat, m: nat, k: nat) {
    && i + 2 <= m < k <= |s|
    && s[i] == 'R' && s[i + 1] == '$'
    && (forall j :: i + 2 <= j < m ==> IsSpace(s[j]))
    && (forall j :: m <= j < k ==> IsAmountChar(s[j]))
    && (k == |s| || !IsAmountChar(s[k]))
  }

  /** A match the scanner reports has the shape of a price. */
  lemma MatchEndSound(s: string, i: nat)
    requires i <= |s| && MatchEnd(s, i).Some?
    ensures PriceAt(s, i, SpaceRunEnd(s, i + 2), MatchEnd(s, i).value)
  {
  }

  /** Every price shape is found by the scanner at its start, with the same end. */
  lemma MatchEndComplete(s: string, i: nat, m: nat, k: nat)
    requires PriceAt(s, i, m, k)
    ensures m == SpaceRunEnd(s, i + 2)
    ensures MatchEnd(s, i) == Some(k)
  {
    // A longer whitespace run would make s[m] both whitespace and an amount character.
    assert m < SpaceRunEnd(s, i + 2) ==> IsSpace(s[m]);
  }

  /** The search from `i` finds nothing exactly when no price starts at or after `i`. */
  lemma {:induction false} SearchFromEmpty(s: string, i: nat)
    requires i <= |s|
    ensures SearchFrom(s, i) == "" <==> forall p: nat, m: nat, k: nat :: i <= p ==> !PriceAt(s, p, m, k)
    decreases |s| - i
  {
    if i < |s| {
      SearchFromEmpty(s, i + 1);
      match MatchEnd(s, i)
      case Some(k) =>
        MatchEndSound(s, i);
        assert s[i..k][0] == 'R';
      case None =>
        forall m, k | PriceAt(s, i, m, k) ensures false {
          MatchEndComplete(s, i, m, k);
        }
    }
  }

  /**
   * When the leftmost price starts at `i` and ends at `k`, the search from any
   * position at or before `i` returns s[i..k].
   */
  lemma {:induction false} SearchFromFinds(s: string, p: nat, i: nat, m: nat, k: nat)
    requires p <= i && PriceAt(s, i, m, k)
    requires forall i': nat, m': nat, k': nat :: p <= i' < i ==> !PriceAt(s, i', m', k')
    ensures SearchFrom(s, p) == s[i..k]
    decreases i - p
  {
    if p == i {
      MatchEndComplete(s, i, m, k);
    } else {
      if MatchEnd(s, p).Some? {
        MatchEndSound(s, p);
      }
      SearchFromFinds(s, p + 1, i, m, k);
    }
  }

  /** extrair_preco returns '' exactly when the text contains no price. */
  lemma ExtractPriceEmpty(text: string)
    ensures ExtractPrice(text) == "" <==> forall i: nat, m: nat, k: nat :: !PriceAt(text, i, m, k)
  {
    SearchFromEmpty(text, 0);
  }

  /**
   * A non-empty result of extrair_preco is the leftmost price of the text: a
   * slice s[i..k] of the shape PriceAt, with no price starting before `i`.
   */
  lemma ExtractPriceLeftmost(text: string, i: nat, m: nat, k: nat)
    requires PriceAt(text, i, m, k)
    requires forall i': nat, m': nat, k': nat :: i' < i ==> !PriceAt(text, i', m', k')
    ensures ExtractPrice(text) == text[i..k]
  {
    SearchFromFinds(text, 0, i, m, k);
  }

  /** A non-empty search result from `i` is the first price that starts at or after `i`. */
  lemma {:induction false} SearchFromFound(s: string, i: nat)
    requires i <= |s| && SearchFrom(s, i) != ""
    ensures exists p: nat, m: nat, k: nat :: && i <= p && PriceAt(s, p, m, k) && SearchFrom(s, i) == s[p..k]
                              && forall p': nat, m': nat, k': nat :: i <= p' < p ==> !PriceAt(s, p', m', k')
    decreases |s| - i
  {
    match MatchEnd(s, i)
    case Some(k) =>
      MatchEndSound(s, i);
      assert PriceAt(s, i, SpaceRunEnd(s, i + 2), k);
    case None =>
      SearchFromFound(s, i + 1);
      var p: nat, m: nat, k: nat :| && i + 1 <= p && PriceAt(s, p, m, k) && SearchFrom(s, i + 1) == s[p..k]
                     && forall p': nat, m': nat, k': nat :: i + 1 <= p' < p ==> !PriceAt(s, p', m', k');
      forall m', k' | PriceAt(s, i, m', k') ensures false {
        MatchEndComplete(s, i, m', k');
      }
      assert PriceAt(s, p, m, k);
  }

  /** A non-empty result of extrair_preco is the leftmost price of the text. */
  lemma ExtractPriceIsLeftmostPrice(text: string)
    requires ExtractPrice(text) != ""
    ensures exists i: nat, m: nat, k: nat :: && PriceAt(text, i, m, k) && ExtractPrice(text) == text[i..k]
                              && forall i': nat, m': nat, k': nat :: i' < i ==> !PriceAt(text, i', m', k')
  {
    SearchFromFound(text, 0);
  }

  /** The format in the docstring, 'R$ 1.234,56', is matched in full. */
  lemma DocstringExample()
    ensures ExtractPrice("R$ 1.234,56") == "R$ 1.234,56"
  {
    var s := "R$ 1.234,56";
    assert PriceAt(s, 0, 3, 11);
    ExtractPriceLeftmost(s, 0, 3, 11);
    assert s[0..11] == s;
  }

  /** A price inside running text: "Por R$ 59,90 hoje" gives "R$ 59,90". */
  lemma RunningTextExample()
    ensures ExtractPrice("Por R$ 59,90 hoje") == "R$ 59,90"
  {
    var s := "Por R$ 59,90 hoje";
    assert PriceAt(s, 4, 7, 12);
    forall i': nat, m': nat, k': nat | i' < 4 ensures !PriceAt(s, i', m', k') {
      assert s[i'] != 'R';
    }
    ExtractPriceLeftmost(s, 4, 7, 12);
    assert s[4..12] == "R$ 59,90";
  }
}
