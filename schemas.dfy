/**
 * The schema argument of `_get_config`: the dictionary from section names to the
 * option names wanted from them, as a Python value whose types are checked at run
 * time.
 */
module Schemas {

  /**
   * One value of the schema dictionary: a list of option names, a single option
   * name, or any other Python value (described by its `repr`).
   */
  datatype Entry = Multi(keys: seq<string>) | Single(key: string) | Other(repr: string)

  /**
   * The schema argument: a dictionary, as its (section, value) items in
   * iteration (insertion) order, or any other Python value.
   */
  datatype Schema = NotDict(repr: string) | Dict(entries: seq<(string, Entry)>)

  /** The option names one entry asks for, in order. */
  function Names(e: Entry): (r: seq<string>)
    ensures e.Other? ==> r == []
    ensures e.Single? ==> |r| == 1 && r[0] == e.key
  {
    match e
    case Multi(keys) => keys
    case Single(key) => [key]
    case Other(_) => []
  }

  /** Every option name the entries ask for, flattened across sections. */
  function KeySet(entries: seq<(string, Entry)>): set<string>
  {
    if entries == [] then {}
    else (set k | k in Names(entries[0].1)) + KeySet(entries[1..])
  }

  /**
   * The section whose value a flat result holds for option `k`: that of the
   * last entry naming `k`, since later writes overwrite earlier ones.
   */
  function Owner(entries: seq<(string, Entry)>, k: string): string
    requires k in KeySet(entries)
  {
    if k in KeySet(entries[1..]) then Owner(entries[1..], k) else entries[0].0
  }

  /** A Python dictionary never holds the same key twice. */
  predicate DistinctSections(entries: seq<(string, Entry)>) {
    forall i, j :: 0 <= i < j < |entries| ==> entries[i].0 != entries[j].0
  }

  lemma {:induction false} KeySetHas(entries: seq<(string, Entry)>, i: nat, k: string)
    requires i < |entries| && k in Names(entries[i].1)
    ensures k in KeySet(entries)
  {
    if i > 0 {
      KeySetHas(entries[1..], i - 1, k);
    }
  }

  /**
   * The flat result keeps the value of the last entry that names an option:
   * `Owner` is the section of the entry at the last index naming `k`.
   */
  lemma {:induction false} OwnerIsLastNaming(entries: seq<(string, Entry)>, i: nat, k: string)
    requires i < |entries| && k in Names(entries[i].1)
    requires forall j :: i < j < |entries| ==> k !in Names(entries[j].1)
    ensures k in KeySet(entries)
    ensures Owner(entries, k) == entries[i].0
  {
    KeySetHas(entries, i, k);
    if i == 0 {
      NotInKeySet(entries[1..], k);
    } else {
      OwnerIsLastNaming(entries[1..], i - 1, k);
    }
  }

  lemma {:induction false} NotInKeySet(entries: seq<(string, Entry)>, k: string)
    requires forall j :: 0 <= j < |entries| ==> k !in Names(entries[j].1)
    ensures k !in KeySet(entries)
  {
    if entries != [] {
      assert k !in Names(entries[0].1);
      NotInKeySet(entries[1..], k);
    }
  }
}
