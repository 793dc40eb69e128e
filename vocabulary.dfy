/**
 * The price list and the alias map `EmailParser.__init__` builds from it:
 * every product name, lower-cased, and its naive plural lead back to the name.
 */
module Vocabulary {
  import opened Wrappers
  import opened Text

  /** What the price list records about a product; only the unit of measure is read. */
  datatype ProductInfo = ProductInfo(unitOfMeasure: Option<string>)

  /** The price list: its product names in file order, and what it records about each. */
  datatype Catalog = Catalog(names: seq<string>, info: map<string, ProductInfo>) {

    /** A dictionary: each name once, and an entry for exactly the listed names. */
    ghost predicate Valid() {
      && (forall i, j :: 0 <= i < j < |names| ==> names[i] != names[j])
      && (forall n :: n in info <==> n in names)
    }
  }

  /**
   * `self.product_names`: a dictionary from alias to canonical name, its keys
   * in insertion order (an overwrite keeps a key where it was).
   */
  datatype AliasMap = AliasMap(keys: seq<string>, canon: map<string, string>) {

    ghost predicate Valid() {
      && (forall i, j :: 0 <= i < j < |keys| ==> keys[i] != keys[j])
      && (forall k :: k in canon <==> k in keys)
    }
  }

  /** `k` is one of the aliases registered for `name`: its lower-cased form, or that plus "s" when it does not end in "s". */
  predicate IsAliasOf(k: string, name: string) {
    k == Lower(name) || (!EndsWithS(Lower(name)) && k == Lower(name) + "s")
  }

  /** `self.product_names[k] = name` */
  function Register(am: AliasMap, k: string, name: string): AliasMap {
    if k in am.canon then AliasMap(am.keys, am.canon[k := name])
    else AliasMap(am.keys + [k], am.canon[k := name])
  }

  /** One iteration of the constructor's loop. */
  function AddProduct(am: AliasMap, name: string): AliasMap {
    var lc := Lower(name);
    var am' := Register(am, lc, name);
    if !EndsWithS(lc) then Register(am', lc + "s", name) else am'
  }

  /** The alias map after the constructor's loop has run over `names`. */
  function AliasesOf(names: seq<string>): AliasMap
    decreases |names|
  {
    if names == [] then AliasMap([], map[])
    else AddProduct(AliasesOf(names[..|names| - 1]), names[|names| - 1])
  }

  /** The constructor's loop (`EmailParser.__init__`). */
  method BuildAliasMap(names: seq<string>) returns (am: AliasMap)
    ensures am == AliasesOf(names)
  {
    am := AliasMap([], map[]);
    for i := 0 to |names|
      invariant am == AliasesOf(names[..i])
    {
      assert names[..i + 1][..i] == names[..i];
      var lc := Lower(names[i]);
      am := Register(am, lc, names[i]);
      if !EndsWithS(lc) {
        am := Register(am, lc + "s", names[i]);
      }
    }
    assert names[..|names|] == names;
  }

  lemma RegisterValid(am: AliasMap, k: string, name: string)
    requires am.Valid()
    ensures Register(am, k, name).Valid()
  {
  }

  /** The alias map is a well-formed dictionary. */
  lemma {:induction false} AliasesValid(names: seq<string>)
    ensures AliasesOf(names).Valid()
    decreases |names|
  {
    if names != [] {
      var init := names[..|names| - 1];
      AliasesValid(init);
      var lc := Lower(names[|names| - 1]);
      RegisterValid(AliasesOf(init), lc, names[|names| - 1]);
      RegisterValid(Register(AliasesOf(init), lc, names[|names| - 1]), lc + "s", names[|names| - 1]);
    }
  }

  /** Adding a product registers exactly its aliases, pointing them at it, and leaves every other entry alone. */
  lemma AddProductEffect(am: AliasMap, name: string, k: string)
    ensures var c := AddProduct(am, name).canon;
            && (k in c <==> k in am.canon || IsAliasOf(k, name))
            && (IsAliasOf(k, name) ==> c[k] == name)
            && (!IsAliasOf(k, name) && k in am.canon ==> c[k] == am.canon[k])
  {
  }

  /** The keys of the alias map are exactly the aliases of the listed names. */
  lemma {:induction false} AliasKeys(names: seq<string>, k: string)
    ensures k in AliasesOf(names).canon <==> exists i :: 0 <= i < |names| && IsAliasOf(k, names[i])
    decreases |names|
  {
    if names != [] {
      var n := |names| - 1;
      var init := names[..n];
      AliasKeys(init, k);
      AddProductEffect(AliasesOf(init), names[n], k);
      if exists i :: 0 <= i < |names| && IsAliasOf(k, names[i]) {
        var i :| 0 <= i < |names| && IsAliasOf(k, names[i]);
        if i < n {
          assert IsAliasOf(k, init[i]);
        }
      }
      if exists i :: 0 <= i < n && IsAliasOf(k, init[i]) {
        var i :| 0 <= i < n && IsAliasOf(k, init[i]);
        assert IsAliasOf(k, names[i]);
      }
    }
  }

  /**
   * Each alias leads to the LAST listed name it is an alias of: a later write
   * overwrites an earlier one.
   */
  lemma {:induction false} AliasesLastWins(names: seq<string>, k: string)
    requires k in AliasesOf(names).canon
    ensures exists i :: 0 <= i < |names| && AliasesOf(names).canon[k] == names[i] && IsAliasOf(k, names[i])
              && forall j :: i < j < |names| ==> !IsAliasOf(k, names[j])
    decreases |names|
  {
    assert names != [];
    var n := |names| - 1;
    var init := names[..n];
    var c := AliasesOf(names).canon;
    assert AliasesOf(names) == AddProduct(AliasesOf(init), names[n]);
    AddProductEffect(AliasesOf(init), names[n], k);
    if IsAliasOf(k, names[n]) {
      assert c[k] == names[n];
    } else {
      AliasesLastWins(init, k);
      var i :| 0 <= i < n && AliasesOf(init).canon[k] == init[i] && IsAliasOf(k, init[i])
               && forall j :: i < j < n ==> !IsAliasOf(k, init[j]);
      assert c[k] == names[i];
      forall j | i < j < |names|
        ensures !IsAliasOf(k, names[j])
      {
        if j < n {
          assert init[j] == names[j];
        }
      }
    }
  }

  /**
   * Every entry `k -> n` has `k == lower(n)` or `k == lower(n) + "s"`, so the
   * test that skips other entries in the known-product matcher never fires;
   * and every canonical name is a listed product.
   */
  lemma AliasShape(names: seq<string>, k: string)
    requires k in AliasesOf(names).canon
    ensures var n := AliasesOf(names).canon[k];
            n in names && (Lower(n) == k || Lower(n) + "s" == k)
  {
    AliasesLastWins(names, k);
    var i :| 0 <= i < |names| && AliasesOf(names).canon[k] == names[i] && IsAliasOf(k, names[i])
             && forall j :: i < j < |names| ==> !IsAliasOf(k, names[j]);
  }
}
