/** `checkProcessedItemsAndRecord`: items are looked up by the text of one of their properties. */
module Deduplication {
  import opened Basics

  /** The last position at which `key` occurs. */
  ghost function LastIndex(keys: seq<string>, key: string): (i: nat)
    requires key in keys
    ensures i < |keys| && keys[i] == key
    ensures forall j :: i < j < |keys| ==> keys[j] != key
  {
    if keys[|keys| - 1] == key then |keys| - 1 else LastIndex(keys[..|keys| - 1], key)
  }

  /** What the deduplicator owes its caller: every key it was given, once, on one of the two lists. */
  ghost predicate Partitions(keys: seq<string>, unseen: seq<string>, processed: seq<string>) {
    Distinct(unseen + processed) && forall k :: k in unseen + processed <==> k in keys
  }

  /** The positions that the two outputs take their items from. */
  ghost function Chosen(keys: seq<string>, wanted: seq<string>): (r: seq<nat>)
    requires forall k :: k in wanted ==> k in keys
    ensures |r| == |wanted|
    ensures forall p :: 0 <= p < |r| ==> r[p] == LastIndex(keys, wanted[p])
  {
    seq(|wanted|, p requires 0 <= p < |wanted| => LastIndex(keys, wanted[p]))
  }

  /** Each distinct key is represented exactly once, by its last occurrence. */
  lemma OneRepresentativeEach(keys: seq<string>, unseen: seq<string>, processed: seq<string>, j: nat)
    requires Partitions(keys, unseen, processed) && j < |keys|
    ensures var chosen := Chosen(keys, unseen + processed);
      && Distinct(chosen)
      && (j in chosen <==> forall later :: j < later < |keys| ==> keys[later] != keys[j])
  {
    var wanted := unseen + processed;
    var chosen := Chosen(keys, wanted);
    assert keys[j] in keys && keys[j] in wanted;
    var p :| 0 <= p < |wanted| && wanted[p] == keys[j];
    assert chosen[p] == LastIndex(keys, keys[j]);
  }

  /** The reduce that builds the lookup: later items overwrite earlier ones. */
  method BuildLookup(keys: seq<string>) returns (lookup: map<string, nat>)
    ensures forall k :: k in lookup <==> k in keys
    ensures forall k :: k in lookup ==> lookup[k] == LastIndex(keys, k)
  {
    lookup := map[];
    for i := 0 to |keys|
      invariant forall k :: k in lookup <==> k in keys[..i]
      invariant forall k :: k in lookup ==> lookup[k] < i && keys[lookup[k]] == k
      invariant forall k, j :: k in lookup && lookup[k] < j < i ==> keys[j] != k
    {
      lookup := lookup[keys[i] := i];
    }
    assert keys[..|keys|] == keys;
  }

  /** Both outputs, given the two key lists that the deduplicator answered with. */
  method CheckProcessedItemsAndRecord<T>(items: seq<T>, keys: seq<string>, unseenKeys: seq<string>, processedKeys: seq<string>)
    returns (newItems: seq<T>, processedItems: seq<T>)
    requires |keys| == |items| && Partitions(keys, unseenKeys, processedKeys)
    ensures |newItems| == |unseenKeys| && |processedItems| == |processedKeys|
    ensures forall p :: 0 <= p < |unseenKeys| ==> newItems[p] == items[LastIndex(keys, unseenKeys[p])]
    ensures forall p :: 0 <= p < |processedKeys| ==> processedItems[p] == items[LastIndex(keys, processedKeys[p])]
  {
    var lookup := BuildLookup(keys);
    assert forall k :: k in unseenKeys || k in processedKeys ==> k in unseenKeys + processedKeys;
    newItems := seq(|unseenKeys|, p requires 0 <= p < |unseenKeys| && unseenKeys[p] in lookup => items[lookup[unseenKeys[p]]]);
    processedItems := seq(|processedKeys|, p requires 0 <= p < |processedKeys| && processedKeys[p] in lookup => items[lookup[processedKeys[p]]]);
  }
}
