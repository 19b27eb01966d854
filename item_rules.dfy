/** The item rules the three ItemService snapshots share: validateItem, the
    setter merge of updateItem, and the two stream filters of searchItems. */
module ItemRules {
  import opened Base
  import opened Domain
  import opened Seqs
  import opened Text

  // ---------------------------------------------------------------- validation

  /** validateItem: a null name is refused first, then a null description. */
  function ValidateItem(dto: ItemDto): (o: Outcome)
    ensures o == Pass <==> dto.name.Some? && dto.description.Some?
    ensures dto.name.None? ==> o == Fail(NameMissing)
    ensures dto.name.Some? && dto.description.None? ==> o == Fail(DescriptionMissing)
    ensures o.Fail? ==> StatusOf(o.error) == HttpBadRequest
  {
    if dto.name.None? then Fail(NameMissing)
    else if dto.description.None? then Fail(DescriptionMissing)
    else Pass
  }

  // ---------------------------------------------------------------- patch merge

  /** `if (patch == null) patch = stored`, one field of the setter merge. */
  function OrStored<T>(patch: Option<T>, stored: Option<T>): Option<T>
  {
    if patch.None? then stored else patch
  }

  /** updateItem's setters: each null field among available, name and
      description takes the stored item's value; id and requestId stay as sent. */
  function Merge(patch: ItemDto, stored: Item): (r: ItemDto)
  {
    patch.(available := OrStored(patch.available, stored.available),
           name := OrStored(patch.name, stored.name),
           description := OrStored(patch.description, stored.description))
  }

  /** A field that is sent wins; a field that is null is taken from the store. */
  lemma MergeFields(patch: ItemDto, stored: Item)
    ensures var r := Merge(patch, stored);
      (patch.name.Some? ==> r.name == patch.name) && (patch.name.None? ==> r.name == stored.name)
      && (patch.description.Some? ==> r.description == patch.description)
      && (patch.description.None? ==> r.description == stored.description)
      && (patch.available.Some? ==> r.available == patch.available)
      && (patch.available.None? ==> r.available == stored.available)
      && r.id == patch.id && r.requestId == patch.requestId
  {
  }

  /** An empty patch reproduces the stored item's fields. */
  lemma EmptyPatchKeepsItem(id: int, requestId: Option<int>, stored: Item)
    ensures var r := Merge(ItemDto(id, None, None, None, requestId), stored);
      r.name == stored.name && r.description == stored.description && r.available == stored.available
  {
  }

  /** Merging again with the same stored item changes nothing. */
  lemma MergeIdempotent(patch: ItemDto, stored: Item)
    ensures Merge(Merge(patch, stored), stored) == Merge(patch, stored)
  {
  }

  /** A stored item with a name and a description stays valid under any patch. */
  lemma MergeKeepsValid(patch: ItemDto, stored: Item)
    requires stored.name.Some? && stored.description.Some?
    ensures ValidateItem(Merge(patch, stored)) == Pass
  {
  }

  // ---------------------------------------------------------------- search

  /** isContain: `line.toLowerCase().contains(text.toLowerCase())`; a null line throws. */
  function IsContain(line: Option<string>, text: string): (r: Result<bool>)
    ensures r.Err? <==> line.None?
    ensures r.Err? ==> r.error == NullDereference
    ensures r.Ok? ==> (r.value <==> Contains(Lower(line.value), Lower(text)))
  {
    if line.None? then Err(NullDereference) else Ok(Contains(Lower(line.value), Lower(text)))
  }

  /** The two filters of searchItems on one item: the name or else the
      description must contain the text (`||` reads the description only when
      the name does not match), and then `Item::getAvailable` must be true
      (unboxing a null Boolean throws). */
  function Keep(item: Item, text: string): (r: Result<bool>)
    ensures r.Err? ==> r.error == NullDereference
  {
    match IsContain(item.name, text)
    case Err(e) => Err(e)
    case Ok(inName) =>
      match (if inName then Ok(true) else IsContain(item.description, text))
      case Err(e) => Err(e)
      case Ok(matches) =>
        if !matches then Ok(false)
        else if item.available.None? then Err(NullDereference)
        else Ok(item.available.value)
  }

  /** The text occurs, case-insensitively, in the name or the description. */
  predicate Mentions(item: Item, text: string)
  {
    (item.name.Some? && Contains(Lower(item.name.value), Lower(text)))
    || (item.description.Some? && Contains(Lower(item.description.value), Lower(text)))
  }

  /** An item is kept exactly when it is available and mentions the text, and
      it throws exactly when a field the filters read is null. */
  lemma KeepMeaning(item: Item, text: string)
    ensures Keep(item, text) == Ok(true) <==> item.name.Some? && item.available == Some(true) && Mentions(item, text)
    ensures Keep(item, text).Err? <==>
      item.name.None?
      || (!Contains(Lower(item.name.value), Lower(text)) && item.description.None?)
      || (Mentions(item, text) && item.available.None?)
    ensures Keep(item, text).Err? ==> Keep(item, text).error == NullDereference
  {
  }

  /** Every kept item is available and mentions the text. */
  lemma KeptAreMentioned(kept: seq<Item>, text: string)
    requires forall i :: i in kept ==> Keep(i, text) == Ok(true)
    ensures forall i :: i in kept ==> i.available == Some(true) && Mentions(i, text)
  {
    forall i | i in kept ensures i.available == Some(true) && Mentions(i, text) {
      KeepMeaning(i, text);
    }
  }

  /** Every available, named item that mentions the text is kept. */
  lemma KeepAllMentioned(items: seq<Item>, text: string)
    ensures forall i :: i in items && i.name.Some? && i.available == Some(true) && Mentions(i, text) ==> Keep(i, text) == Ok(true)
  {
    forall i | i in items && i.name.Some? && i.available == Some(true) && Mentions(i, text) ensures Keep(i, text) == Ok(true) {
      KeepMeaning(i, text);
    }
  }

  /** The two filters of searchItems as one test, for the stream. */
  function KeepFor(text: string): Item -> Result<bool>
  {
    (i: Item) => Keep(i, text)
  }

  /** The kept items, or the exception one of them throws; the stream runs
      over every item, so any throwing item makes the whole search throw. */
  function Filtered(items: seq<Item>, text: string): (r: Result<seq<Item>>)
    ensures r.Err? <==> exists k :: 0 <= k < |items| && Keep(items[k], text).Err?
    ensures r.Err? ==> r.error == NullDereference
    ensures r.Ok? ==> forall i :: i in r.value <==> i in items && Keep(i, text) == Ok(true)
    ensures r.Ok? ==> multiset(r.value) <= multiset(items) && |r.value| <= |items|
  {
    TryFilter(items, KeepFor(text))
  }

  /** The rows Filtered keeps. */
  function KeptFor(text: string): Item -> bool
  {
    (i: Item) => Keep(i, text) == Ok(true)
  }

  /** When nothing throws, the search keeps the kept items in their original order. */
  lemma {:induction false} FilteredInOrder(items: seq<Item>, text: string)
    requires Filtered(items, text).Ok?
    ensures Filtered(items, text).value == Filter(items, KeptFor(text))
  {
    if items != [] {
      FilterCons(items, KeptFor(text));
      FilteredInOrder(items[1..], text);
    }
  }

  /** searchItems over a fetched list: empty text finds nothing, without
      reading any item. */
  function Search(items: seq<Item>, text: string): (r: Result<seq<Item>>)
    ensures text == [] ==> r == Ok([])
    ensures text != [] ==> r == Filtered(items, text)
    ensures r.Ok? ==> (forall i :: i in r.value ==> i in items && Keep(i, text) == Ok(true)) && |r.value| <= |items|
  {
    if text != [] then Filtered(items, text) else Ok([])
  }

  /** What a search of a fetched list returns: for a non-empty text, a null
      dereference exactly when some item throws, and otherwise exactly the kept
      items in list order, each available and mentioning the text, with every
      available named item that mentions it among them. */
  lemma SearchExact(items: seq<Item>, text: string)
    ensures Search(items, text).Err? <==> text != [] && exists k :: 0 <= k < |items| && Keep(items[k], text).Err?
    ensures Search(items, text).Err? ==> Search(items, text).error == NullDereference
    ensures Search(items, text).Ok? && text != [] ==> Search(items, text).value == Filter(items, KeptFor(text))
    ensures Search(items, text).Ok? ==>
      forall i :: i in Search(items, text).value ==> i in items && i.available == Some(true) && Mentions(i, text)
    ensures Search(items, text).Ok? && text != [] ==>
      forall i :: i in items && i.name.Some? && i.available == Some(true) && Mentions(i, text) ==> i in Search(items, text).value
  {
    var r := Search(items, text);
    if r.Ok? {
      KeptAreMentioned(r.value, text);
      KeepAllMentioned(items, text);
      if text != [] {
        FilteredInOrder(items, text);
      }
    }
  }

  /** The search ignores the case of the text it is given. */
  lemma {:induction false} SearchIgnoresCase(items: seq<Item>, text: string)
    ensures Search(items, Lower(text)) == Search(items, text)
  {
    LowerIdempotent(text);
    if text != [] {
      FilteredIgnoresCase(items, text);
    }
  }

  /** Lower-casing the text changes no item's decision, so it changes no result. */
  lemma FilteredIgnoresCase(items: seq<Item>, text: string)
    ensures Filtered(items, Lower(text)) == Filtered(items, text)
  {
    LowerIdempotent(text);
    forall i | i in items ensures KeepFor(Lower(text))(i) == KeepFor(text)(i) {
      assert Keep(i, Lower(text)) == Keep(i, text);
    }
    TryFilterSameTests(items, KeepFor(Lower(text)), KeepFor(text));
  }

}
