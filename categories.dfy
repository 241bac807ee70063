/** The category colour lookup of the profile page and the event modal: an
    object literal from the six genres to style classes, indexed with the
    event's category and defaulted with `||`. */
module CategoryColors {
  import opened Wrappers

  /** The genres the event form offers. */
  const Categories: seq<string> := ["Rock", "Jazz", "Electronic", "Indie", "Hip-Hop", "Acoustic"]

  /** An object literal: its own properties in the order they are written. */
  type ColorTable = seq<(string, string)>

  /** The property names of a literal, in order. */
  function Keys(table: ColorTable): (keys: seq<string>)
    ensures |keys| == |table| && forall i :: 0 <= i < |table| ==> keys[i] == table[i].0
  {
    if table == [] then [] else [table[0].0] + Keys(table[1..])
  }

  /** The value of the own property `key`, if the literal has one. A name
      written twice keeps the value written last, as in a JavaScript object
      literal. */
  function OwnProperty(table: ColorTable, key: string): (r: Option<string>)
    ensures r.Some? <==> key in Keys(table)
    ensures r.Some? ==> exists i :: 0 <= i < |table| && table[i] == (key, r.value)
                                    && forall j :: i < j < |table| ==> table[j].0 != key
  {
    if table == [] then None
    else
      var n := |table| - 1;
      if table[n].0 == key then
        assert Keys(table)[n] == key;
        Some(table[n].1)
      else
        var r := OwnProperty(table[..n], key);
        assert forall i :: 0 <= i < n ==> table[..n][i] == table[i];
        assert key in Keys(table) <==> key in Keys(table[..n]) by {
          if key in Keys(table) {
            var k :| 0 <= k < |table| && Keys(table)[k] == key;
            assert Keys(table[..n])[k] == key;
          }
          if key in Keys(table[..n]) {
            var k :| 0 <= k < n && Keys(table[..n])[k] == key;
            assert Keys(table)[k] == key;
          }
        }
        r
  }

  /** No name is written twice. */
  ghost predicate DistinctKeys(table: ColorTable) {
    forall i, j :: 0 <= i < j < |table| ==> table[i].0 != table[j].0
  }

  /** With distinct names, each property is found with the value written beside it. */
  lemma {:induction false} OwnPropertyOfListedKey(table: ColorTable, i: nat)
    requires DistinctKeys(table) && i < |table|
    ensures OwnProperty(table, table[i].0) == Some(table[i].1)
  {
    var n := |table| - 1;
    if i < n {
      assert table[..n][i] == table[i];
      OwnPropertyOfListedKey(table[..n], i);
    }
  }

  /** The genres are six different names: their first letters differ. */
  lemma CategoriesDistinct()
    ensures forall i, j :: 0 <= i < j < |Categories| ==> Categories[i] != Categories[j]
  {
    forall i | 0 <= i < |Categories| ensures Categories[i][0] == "RJEIHA"[i] {
    }
  }

  /** An object literal over the six genres, in the order they are listed,
      with `classes[i]` written beside genre `i`. */
  function GenreTable(classes: seq<string>): (table: ColorTable)
    requires |classes| == |Categories|
    ensures |table| == |Categories|
    ensures forall i :: 0 <= i < |table| ==> table[i] == (Categories[i], classes[i])
    ensures Keys(table) == Categories
  {
    seq(|Categories|, i requires 0 <= i < |Categories| => (Categories[i], classes[i]))
  }

  /** Genre `i` is found with the class written beside it. */
  lemma GenreProperty(classes: seq<string>, i: nat)
    requires |classes| == |Categories| && i < |Categories|
    ensures OwnProperty(GenreTable(classes), Categories[i]) == Some(classes[i])
  {
    var table := GenreTable(classes);
    CategoriesDistinct();
    assert DistinctKeys(table) by {
      forall j, k | 0 <= j < k < |table| ensures table[j].0 != table[k].0 {
        assert table[j].0 == Categories[j] && table[k].0 == Categories[k];
      }
    }
    OwnPropertyOfListedKey(table, i);
  }

  /** `colors[category] || fallback` for a key that is not inherited: the own
      value when there is a non-empty one, the fallback otherwise. */
  function CategoryColor(table: ColorTable, fallback: string, category: string): (c: string)
    ensures OwnProperty(table, category).Some? && OwnProperty(table, category).value != [] ==>
      c == OwnProperty(table, category).value
    ensures category !in Keys(table) ==> c == fallback
  {
    var own := OwnProperty(table, category);
    if own.Some? && own.value != [] then own.value else fallback
  }

  /** What indexing a JavaScript object can produce: a string, or a member
      that every object inherits from `Object.prototype` (a function, or the
      prototype itself for `__proto__`), which is never falsy. */
  datatype PropertyValue = Text(text: string) | Inherited(name: string)

  /** The names every object literal inherits from `Object.prototype`. */
  const ObjectPrototypeNames: seq<string> := [
    "constructor", "hasOwnProperty", "isPrototypeOf", "propertyIsEnumerable",
    "toLocaleString", "toString", "valueOf", "__proto__",
    "__defineGetter__", "__defineSetter__", "__lookupGetter__", "__lookupSetter__"]

  /** `colors[category] || fallback` as JavaScript evaluates it: own
      properties first, then the inherited ones, and the fallback only for a
      missing or empty value. */
  function LookupAsWritten(table: ColorTable, fallback: string, category: string): (v: PropertyValue)
    ensures category !in ObjectPrototypeNames ==> v == Text(CategoryColor(table, fallback, category))
    ensures OwnProperty(table, category).None? && category in ObjectPrototypeNames ==> v == Inherited(category)
  {
    var own := OwnProperty(table, category);
    if own.Some? && own.value != [] then Text(own.value)
    else if own.None? && category in ObjectPrototypeNames then Inherited(category)
    else Text(fallback)
  }

  /** No genre is an inherited name, so for every category the form offers the
      lookup as written and the corrected one agree. */
  lemma OfferedCategoriesAgree(table: ColorTable, fallback: string, category: string)
    requires category in Categories
    ensures LookupAsWritten(table, fallback, category) == Text(CategoryColor(table, fallback, category))
  {
    assert category !in ObjectPrototypeNames by {
      var i :| 0 <= i < |Categories| && Categories[i] == category;
      assert category[0] in "RJEIHA";
      forall j | 0 <= j < |ObjectPrototypeNames| ensures ObjectPrototypeNames[j][0] !in "RJEIHA" {
      }
    }
  }

  /** Both tables of the application are genre tables, and `toString` is no
      genre: as written, the category `toString` yields the function every
      object inherits under that name, and never reaches the fallback. */
  lemma InheritedNameEscapesFallback(classes: seq<string>, fallback: string)
    requires |classes| == |Categories|
    ensures LookupAsWritten(GenreTable(classes), fallback, "toString") == Inherited("toString")
    ensures !LookupAsWritten(GenreTable(classes), fallback, "toString").Text?
  {
    assert "toString" !in Categories by {
      forall j | 0 <= j < |Categories| ensures Categories[j][0] != 't' {
      }
    }
    assert ObjectPrototypeNames[5] == "toString";
  }
}
