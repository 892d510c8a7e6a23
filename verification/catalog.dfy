/**
 The clean-up applied to the text scraped from the catalog page. The page
 is parsed and queried elsewhere; what arrives here is, for each model list
 item, the raw text its selectors matched.
 */
module Catalog {
  import opened ByteStrings

  /** The untrimmed text of one model list item: its title, description,
      every size and capability span in document order, and the three
      metadata spans. */
  datatype RawItem = RawItem(
    title: Bytes,
    description: Bytes,
    sizes: seq<Bytes>,
    capabilities: seq<Bytes>,
    pullCount: Bytes,
    tagCount: Bytes,
    updated: Bytes)

  /** A catalog entry as the listing shows it. */
  datatype ModelInfo = ModelInfo(
    name: Bytes,
    description: Bytes,
    parameters: seq<Bytes>,
    capabilities: seq<Bytes>,
    pullCount: Bytes,
    tagCount: Bytes,
    updatedAt: Bytes)

  /** No white space at either end (TrimSpaceFixesTrimmed: trimming leaves it alone). */
  predicate IsTrimmed(t: Bytes) {
    t == [] || (!IsSpace(t[0]) && !IsSpace(t[|t| - 1]))
  }

  /** A non-empty text with no white space around it. */
  predicate IsCleanText(t: Bytes) {
    t != [] && IsTrimmed(t)
  }

  /** Every text trimmed, in the same order. */
  function TrimAll(texts: seq<Bytes>): (r: seq<Bytes>)
    ensures |r| == |texts|
    ensures forall k :: 0 <= k < |r| ==> IsTrimmed(r[k])
  {
    MapSeq(TrimSpace, texts)
  }

  /** The non-empty texts, in order. */
  function DropEmpty(texts: seq<Bytes>): (r: seq<Bytes>)
    ensures |r| <= |texts|
    ensures forall k :: 0 <= k < |r| ==> r[k] != []
  {
    if |texts| == 0 then []
    else (if texts[0] == [] then [] else [texts[0]]) + DropEmpty(texts[1..])
  }

  /** A text survives exactly when it is a non-empty input. */
  lemma {:induction false} DropEmptyMembers(texts: seq<Bytes>, t: Bytes)
    ensures t in DropEmpty(texts) <==> t != [] && t in texts
  {
    if |texts| > 0 {
      DropEmptyMembers(texts[1..], t);
      assert texts == [texts[0]] + texts[1..];
    }
  }

  /** Dropping from a concatenation drops from each part and keeps them in order. */
  lemma {:induction false} DropEmptyAppend(a: seq<Bytes>, b: seq<Bytes>)
    ensures DropEmpty(a + b) == DropEmpty(a) + DropEmpty(b)
    decreases |a|
  {
    if |a| > 0 {
      assert (a + b)[0] == a[0];
      assert (a + b)[1..] == a[1..] + b;
      DropEmptyAppend(a[1..], b);
    } else {
      assert a + b == b;
    }
  }

  /** The sizes or capabilities of a list item: each text trimmed, empty ones
      dropped, the rest in document order. */
  function KeepNonEmptyTrimmed(texts: seq<Bytes>): (r: seq<Bytes>)
    ensures |r| <= |texts|
    ensures forall k :: 0 <= k < |r| ==> IsCleanText(r[k])
  {
    var trimmed := TrimAll(texts);
    forall k | 0 <= k < |DropEmpty(trimmed)| ensures IsTrimmed(DropEmpty(trimmed)[k]) {
      DropEmptyMembers(trimmed, DropEmpty(trimmed)[k]);
    }
    DropEmpty(trimmed)
  }

  /** A text is kept exactly when it is the non-empty trim of some input. */
  lemma {:induction false} KeepNonEmptyTrimmedMembers(texts: seq<Bytes>, t: Bytes)
    ensures t in KeepNonEmptyTrimmed(texts) <==>
              t != [] && exists i :: 0 <= i < |texts| && TrimSpace(texts[i]) == t
  {
    var trimmed := TrimAll(texts);
    DropEmptyMembers(trimmed, t);
    if t in trimmed {
      var i :| 0 <= i < |texts| && trimmed[i] == t;
      assert TrimSpace(texts[i]) == t;
    }
    if t != [] && exists i :: 0 <= i < |texts| && TrimSpace(texts[i]) == t {
      var i :| 0 <= i < |texts| && TrimSpace(texts[i]) == t;
      assert trimmed[i] == t;
    }
  }

  /** Trimming and filtering a concatenation handles each part and keeps them in order. */
  lemma KeepNonEmptyTrimmedAppend(a: seq<Bytes>, b: seq<Bytes>)
    ensures KeepNonEmptyTrimmed(a + b) == KeepNonEmptyTrimmed(a) + KeepNonEmptyTrimmed(b)
  {
    MapSeqAppend(TrimSpace, a, b);
    DropEmptyAppend(TrimAll(a), TrimAll(b));
  }

  /** The program's span loop: trim each match and append it unless empty. */
  method CollectTexts(texts: seq<Bytes>) returns (kept: seq<Bytes>)
    ensures kept == KeepNonEmptyTrimmed(texts)
  {
    kept := [];
    for i := 0 to |texts|
      invariant kept == KeepNonEmptyTrimmed(texts[..i])
    {
      var t := TrimSpace(texts[i]);
      if t != [] {
        kept := kept + [t];
      }
      assert texts[..i + 1] == texts[..i] + [texts[i]];
      KeepNonEmptyTrimmedAppend(texts[..i], [texts[i]]);
    }
    assert texts[..|texts|] == texts;
  }

  /** One list item's record: every field trimmed, empty sizes and
      capabilities dropped. */
  function Extract(item: RawItem): ModelInfo {
    ModelInfo(
      TrimSpace(item.title),
      TrimSpace(item.description),
      KeepNonEmptyTrimmed(item.sizes),
      KeepNonEmptyTrimmed(item.capabilities),
      TrimSpace(item.pullCount),
      TrimSpace(item.tagCount),
      TrimSpace(item.updated))
  }

  /** What every listed record looks like: a clean name, every field trimmed,
      and size and capability lists of clean texts only. */
  predicate IsListedModel(m: ModelInfo) {
    && IsCleanText(m.name)
    && IsTrimmed(m.description)
    && (forall k :: 0 <= k < |m.parameters| ==> IsCleanText(m.parameters[k]))
    && (forall k :: 0 <= k < |m.capabilities| ==> IsCleanText(m.capabilities[k]))
    && IsTrimmed(m.pullCount)
    && IsTrimmed(m.tagCount)
    && IsTrimmed(m.updatedAt)
  }

  /** A record whose name trims to something non-empty passes as listed. */
  lemma ExtractIsListed(item: RawItem)
    requires TrimSpace(item.title) != []
    ensures IsListedModel(Extract(item))
  {
  }

  /** Every list item's record, in page order. */
  function ExtractAll(items: seq<RawItem>): (r: seq<ModelInfo>)
    ensures |r| == |items|
  {
    MapSeq(Extract, items)
  }

  /** The records that have a name, in order. */
  function KeepNamed(models: seq<ModelInfo>): (r: seq<ModelInfo>)
    ensures |r| <= |models|
    ensures forall k :: 0 <= k < |r| ==> r[k].name != []
  {
    if |models| == 0 then []
    else (if models[0].name == [] then [] else [models[0]]) + KeepNamed(models[1..])
  }

  /** A record survives exactly when it is an input record with a name. */
  lemma {:induction false} KeepNamedMembers(models: seq<ModelInfo>, m: ModelInfo)
    ensures m in KeepNamed(models) <==> m.name != [] && m in models
  {
    if |models| > 0 {
      KeepNamedMembers(models[1..], m);
      assert models == [models[0]] + models[1..];
    }
  }

  /** Keeping from a concatenation keeps from each part, in order. */
  lemma {:induction false} KeepNamedAppend(a: seq<ModelInfo>, b: seq<ModelInfo>)
    ensures KeepNamed(a + b) == KeepNamed(a) + KeepNamed(b)
    decreases |a|
  {
    if |a| > 0 {
      assert (a + b)[0] == a[0];
      assert (a + b)[1..] == a[1..] + b;
      KeepNamedAppend(a[1..], b);
    } else {
      assert a + b == b;
    }
  }

  /** Without a nameless record nothing is dropped. */
  lemma {:induction false} KeepNamedKeepsAll(models: seq<ModelInfo>)
    requires forall k :: 0 <= k < |models| ==> models[k].name != []
    ensures KeepNamed(models) == models
  {
    if |models| > 0 {
      KeepNamedKeepsAll(models[1..]);
      assert models == [models[0]] + models[1..];
    }
  }

  /** The catalog: the records of the list items, in page order, without
      those whose trimmed name is empty. */
  function ListedModels(items: seq<RawItem>): (r: seq<ModelInfo>)
    ensures |r| <= |items|
    ensures forall k :: 0 <= k < |r| ==> r[k].name != []
  {
    KeepNamed(ExtractAll(items))
  }

  /** A record is listed exactly when it is the record of some item and has a name. */
  lemma {:induction false} ListedModelsMembers(items: seq<RawItem>, m: ModelInfo)
    ensures m in ListedModels(items) <==>
              m.name != [] && exists i :: 0 <= i < |items| && Extract(items[i]) == m
  {
    var all := ExtractAll(items);
    KeepNamedMembers(all, m);
    if m in all {
      var i :| 0 <= i < |items| && all[i] == m;
      assert Extract(items[i]) == m;
    }
    if m.name != [] && exists i :: 0 <= i < |items| && Extract(items[i]) == m {
      var i :| 0 <= i < |items| && Extract(items[i]) == m;
      assert all[i] == m;
    }
  }

  /** Every listed record has a clean name, trimmed fields and clean size and
      capability lists. */
  lemma ListedModelsAreClean(items: seq<RawItem>, k: nat)
    requires k < |ListedModels(items)|
    ensures IsListedModel(ListedModels(items)[k])
  {
    var m := ListedModels(items)[k];
    ListedModelsMembers(items, m);
    var i :| 0 <= i < |items| && Extract(items[i]) == m;
    ExtractIsListed(items[i]);
  }

  /** Listing a concatenation lists each part and keeps them in order. */
  lemma ListedModelsAppend(a: seq<RawItem>, b: seq<RawItem>)
    ensures ListedModels(a + b) == ListedModels(a) + ListedModels(b)
  {
    MapSeqAppend(Extract, a, b);
    KeepNamedAppend(ExtractAll(a), ExtractAll(b));
  }

  /** When every item has a name, every item is listed, in order. */
  lemma ListedModelsKeepsNamed(items: seq<RawItem>)
    requires forall i :: 0 <= i < |items| ==> TrimSpace(items[i].title) != []
    ensures ListedModels(items) == ExtractAll(items)
  {
    KeepNamedKeepsAll(ExtractAll(items));
  }
}
