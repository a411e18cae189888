/** The fixed category registry: an object keyed by category name, walked in insertion order. */
module Categories {
  import opened Wrappers

  /** One registry entry: the key tasks refer to, the display name and the colour token. */
  datatype CategoryDef = CategoryDef(key: string, name: string, color: string)

  /** The registry the widget ships with, in declaration (and so iteration) order. */
  const Registry: seq<CategoryDef> := [
    CategoryDef("Business", "Business", "fuchsia"),
    CategoryDef("Personal", "Personal", "blue")
  ]

  /** Object keys are unique: no two entries share a key. */
  predicate DistinctKeys(reg: seq<CategoryDef>)
  {
    forall i, j :: 0 <= i < j < |reg| ==> reg[i].key != reg[j].key
  }

  /** Some entry of the registry has key `key`. */
  predicate Registered(reg: seq<CategoryDef>, key: string)
  {
    exists i :: 0 <= i < |reg| && reg[i].key == key
  }

  /** `categories[key]`: the entry with that key, or `None` for an unregistered key. */
  function Lookup(reg: seq<CategoryDef>, key: string): (r: Option<CategoryDef>)
    ensures r.Some? ==> r.value in reg && r.value.key == key
    ensures r.None? <==> !Registered(reg, key)
  {
    if reg == [] then None
    else if reg[0].key == key then Some(reg[0])
    else
      var rest := Lookup(reg[1..], key);
      assert Registered(reg, key) ==> Registered(reg[1..], key) by {
        if Registered(reg, key) {
          var i :| 0 <= i < |reg| && reg[i].key == key;
          assert reg[1..][i - 1].key == key;
        }
      }
      assert Registered(reg[1..], key) ==> Registered(reg, key) by {
        if Registered(reg[1..], key) {
          var i :| 0 <= i < |reg[1..]| && reg[1..][i].key == key;
          assert reg[i + 1].key == key;
        }
      }
      rest
  }

  /** With distinct keys, looking up the key of entry `i` finds entry `i` itself. */
  lemma LookupFindsEntry(reg: seq<CategoryDef>, i: nat)
    requires DistinctKeys(reg)
    requires i < |reg|
    ensures Lookup(reg, reg[i].key) == Some(reg[i])
  {
  }

  /** The shipped registry has distinct keys. */
  lemma RegistryDistinct()
    ensures DistinctKeys(Registry)
  {
  }
}
