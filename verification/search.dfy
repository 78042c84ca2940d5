/**
  The demo search form: the query is trimmed and lower-cased; an empty
  query only asks for a term, otherwise every product card is shown exactly
  when its lower-cased title contains the query, and the number of shown
  cards is reported.
*/
module Search {
  import opened Wrappers
  import opened Text

  /**
    A product card: its `data-title` attribute and the text of its `h3`
    heading, either of which may be missing.
  */
  datatype Card = Card(dataTitle: Option<string>, heading: Option<string>)

  /** `card.dataset.title || heading text || ''`: the first non-empty of the two, else empty. */
  function CardTitle(card: Card): (t: string)
    ensures card.dataTitle.Some? && card.dataTitle.value != "" ==> t == card.dataTitle.value
    ensures (card.dataTitle.None? || card.dataTitle.value == "") && card.heading.Some? ==> t == card.heading.value
    ensures t == "" <==> (card.dataTitle.None? || card.dataTitle.value == "") && (card.heading.None? || card.heading.value == "")
  {
    if card.dataTitle.Some? && card.dataTitle.value != "" then card.dataTitle.value
    else if card.heading.Some? && card.heading.value != "" then card.heading.value
    else ""
  }

  /** The query as the handler reads it: trimmed, then lower-cased. */
  function Normalize(query: string): (q: string)
    ensures q == [] <==> AllSpace(query)
    ensures forall k :: 0 <= k < |q| ==> !('A' <= q[k] <= 'Z')
  {
    TrimEmptyIff(query);
    Lower(Trim(query))
  }

  /** Whether a card stays visible for the (already normalised) query. */
  predicate Shows(card: Card, q: string) {
    Includes(Lower(CardTitle(card)), q)
  }

  /** Number of `true` entries. */
  function CountTrue(flags: seq<bool>): (n: nat)
    ensures n <= |flags|
  {
    if flags == [] then 0 else CountTrue(flags[..|flags| - 1]) + (if flags[|flags| - 1] then 1 else 0)
  }

  /** The visibility every card ends up with for query `q`. */
  function Visibility(cards: seq<Card>, q: string): (shown: seq<bool>)
    ensures |shown| == |cards|
  {
    seq(|cards|, k requires 0 <= k < |cards| => Shows(cards[k], q))
  }

  /**
    The loop over the cards: card `k` is displayed (`shown[k]`) exactly when
    it matches `q`, and the result is how many are displayed.
  */
  method Filter(q: string, cards: seq<Card>, shown: array<bool>) returns (found: nat)
    requires shown.Length == |cards|
    modifies shown
    ensures shown[..] == Visibility(cards, q)
    ensures found == CountTrue(shown[..])
  {
    ghost var want := Visibility(cards, q);
    found := 0;
    var i := 0;
    while i < |cards|
      invariant 0 <= i <= |cards|
      invariant forall k :: 0 <= k < i ==> shown[k] == want[k]
      invariant found == CountTrue(want[..i])
    {
      var hit := Shows(cards[i], q);
      assert hit == want[i];
      shown[i] := hit;
      if hit {
        found := found + 1;
      }
      assert want[..i + 1][..i] == want[..i];
      i := i + 1;
    }
    assert want[..i] == want;
    assert shown[..] == want;
  }

  /**
    The submit handler. `shown[k]` is whether card `k` is displayed. An
    empty query leaves every card as it was and reports nothing (the script
    asks for a term instead); otherwise every card is set to shown or hidden
    and the count of shown cards is the result.
  */
  method RunSearch(query: string, cards: seq<Card>, shown: array<bool>) returns (found: Option<nat>)
    requires shown.Length == |cards|
    modifies shown
    ensures Normalize(query) == [] ==> found == None && shown[..] == old(shown[..])
    ensures Normalize(query) != [] ==> shown[..] == Visibility(cards, Normalize(query))
    ensures Normalize(query) != [] ==> found == Some(CountTrue(shown[..]))
  {
    var q := Normalize(query);
    if q == [] {
      return None;
    }
    var n := Filter(q, cards, shown);
    return Some(n);
  }

  /** Case does not matter: queries that agree up to case select the same cards. */
  lemma CaseInsensitive(a: string, b: string)
    requires Lower(a) == Lower(b)
    ensures Normalize(a) == Normalize(b)
  {
    LowerTrim(a);
    LowerTrim(b);
    LowerIdempotent(Trim(a));
    LowerIdempotent(Trim(b));
    LowerTrim(Lower(a));
    LowerTrim(Lower(b));
  }

  /** A card is shown exactly when the query occurs somewhere in its lower-cased title. */
  lemma ShowsIff(card: Card, q: string)
    ensures Shows(card, q) <==> exists i :: OccursAt(Lower(CardTitle(card)), q, i)
  {
    IncludesIff(Lower(CardTitle(card)), q);
  }
}
