/**
 * The life cycle of an object identified by a numeric database id: default
 * attributes at construction, the frozen guard on changes, validation,
 * deletion marking, cloning of attributes and defaulted reads.
 *
 * Attributes are a flat record of JavaScript values; an attribute path is a
 * single key. The fresh uuid that construction may need is supplied by the
 * caller, and the subclass's `_validate` is a function parameter.
 */
module BaseObjects {
  import opened JsValues

  /** The outcome of a change that throws on a frozen object. */
  datatype Outcome = Done | Failed(message: string)

  /** `is_frozen === true`. */
  predicate IsFrozen(a: Attributes)
  {
    Get(a, "is_frozen") == Bool(true)
  }

  /** `id === -1`: the object has not been saved yet. */
  predicate IsNew(a: Attributes)
  {
    Get(a, "id") == Number(-1)
  }

  /** The keys construction always sets. */
  predicate Reserved(k: string)
  {
    k == "id" || k == "uuid" || k == "is_frozen"
  }

  /**
   * Construction defaults: a falsy id becomes -1, a falsy uuid becomes the
   * fresh one, `is_frozen` becomes its truthiness, and every other attribute
   * is kept as given.
   */
  function PrepareAttributes(a: Attributes, freshUuid: string): (r: Attributes)
    ensures r.Keys == a.Keys + {"id", "uuid", "is_frozen"}
    ensures r["id"] == if Truthy(Get(a, "id")) then a["id"] else Number(-1)
    ensures r["uuid"] == if Truthy(Get(a, "uuid")) then a["uuid"] else Str(freshUuid)
    ensures r["is_frozen"] == Bool(Truthy(Get(a, "is_frozen")))
    ensures forall k :: k in a && !Reserved(k) ==> r[k] == a[k]
  {
    var rest := map k | k in a.Keys && !Reserved(k) :: a[k];
    rest["id" := if Truthy(Get(a, "id")) then a["id"] else Number(-1)]
        ["uuid" := if Truthy(Get(a, "uuid")) then a["uuid"] else Str(freshUuid)]
        ["is_frozen" := Bool(Truthy(Get(a, "is_frozen")))]
  }

  /** A prepared object is new exactly when it was given no id, or the id -1. */
  lemma NewIffNoId(a: Attributes, freshUuid: string)
    ensures IsNew(PrepareAttributes(a, freshUuid)) <==> !Truthy(Get(a, "id")) || Get(a, "id") == Number(-1)
    ensures IsFrozen(PrepareAttributes(a, freshUuid)) <==> Truthy(Get(a, "is_frozen"))
  {
  }

  /** Preparing prepared attributes changes nothing, since uuids are never empty. */
  lemma PrepareIdempotent(a: Attributes, u1: string, u2: string)
    requires u1 != ""
    ensures PrepareAttributes(PrepareAttributes(a, u1), u2) == PrepareAttributes(a, u1)
  {
    var p := PrepareAttributes(a, u1);
    var q := PrepareAttributes(p, u2);
    assert Truthy(p["id"]) by {
      if Truthy(Get(a, "id")) { assert p["id"] == a["id"]; }
    }
    assert Truthy(p["uuid"]);
    forall k | k in q ensures k in p && q[k] == p[k] {
    }
    assert q.Keys == p.Keys;
  }

  /** The error `set` throws on a frozen object. */
  function SetMessage(path: string): string
  {
    "Cannot set " + path + " on a frozen object"
  }

  const MergeMessage := "Cannot merge attributes on a frozen object"

  /**
   * lodash `merge` for a flat record: each key of `u` overrides the stored
   * value, except that an undefined value does not override a key already
   * present.
   */
  function Merge(a: Attributes, u: Attributes): (r: Attributes)
    ensures r.Keys == a.Keys + u.Keys
    ensures forall k :: k in u && (u[k] != Undefined || k !in a) ==> r[k] == u[k]
    ensures forall k :: k in a && (k !in u || u[k] == Undefined) ==> r[k] == a[k]
  {
    map k | k in a.Keys + u.Keys :: if k in u && (u[k] != Undefined || k !in a) then u[k] else a[k]
  }

  /** Merging `is_frozen: false` unfreezes; merging nothing about it keeps the frozen state. */
  lemma MergeFreezing(a: Attributes, u: Attributes)
    ensures Get(u, "is_frozen") == Bool(false) ==> !IsFrozen(Merge(a, u))
    ensures Get(u, "is_frozen") == Undefined ==> (IsFrozen(Merge(a, u)) <==> IsFrozen(a))
  {
  }

  /**
   * A copy of the attributes; with `deleteSpecifics`, without the id and
   * uuid, and without the creation and update dates when those are truthy.
   */
  function ClonedAttributes(a: Attributes, deleteSpecifics: bool): (r: Attributes)
    ensures !deleteSpecifics ==> r == a
    ensures deleteSpecifics ==>
      "id" !in r && "uuid" !in r &&
      (Truthy(Get(a, "created_at")) ==> "created_at" !in r) &&
      (Truthy(Get(a, "updated_at")) ==> "updated_at" !in r)
    ensures forall k :: k in r ==> k in a && r[k] == a[k]
    ensures deleteSpecifics ==> forall k ::
      (k in a && k != "id" && k != "uuid" && !((k == "created_at" || k == "updated_at") && Truthy(a[k]))) ==> k in r
  {
    if !deleteSpecifics then a
    else
      var r := a - {"id", "uuid"};
      var r := if Truthy(Get(r, "created_at")) then r - {"created_at"} else r;
      if Truthy(Get(r, "updated_at")) then r - {"updated_at"} else r
  }

  /**
   * Cloning with specifics deleted and constructing from the copy gives a new
   * object with the fresh uuid, the same frozen state and the same other
   * attributes.
   */
  lemma CloneIsNew(a: Attributes, freshUuid: string)
    requires freshUuid != ""
    ensures var c := PrepareAttributes(ClonedAttributes(a, true), freshUuid);
      IsNew(c) && c["uuid"] == Str(freshUuid) &&
      (IsFrozen(c) <==> Truthy(Get(a, "is_frozen"))) &&
      forall k :: k in a && !Reserved(k) && k != "created_at" && k != "updated_at" ==> c[k] == a[k]
  {
    var cl := ClonedAttributes(a, true);
    assert Get(cl, "id") == Undefined && Get(cl, "uuid") == Undefined;
    assert Get(cl, "is_frozen") == Get(a, "is_frozen");
  }

  /** Cloning and constructing without deleting specifics gives back prepared attributes unchanged. */
  lemma CloneKeepingSpecifics(a: Attributes, u1: string, u2: string)
    requires u1 != ""
    ensures var p := PrepareAttributes(a, u1);
      PrepareAttributes(ClonedAttributes(p, false), u2) == p
  {
    PrepareIdempotent(a, u1, u2);
  }

  /** null, undefined and '' are the values a default replaces. */
  predicate IsBlank(v: Value)
  {
    v == Null || v == Undefined || v == Str("")
  }

  /**
   * `get(path, defaultValue)` on a flat path: the stored value, or the default
   * when the stored value is blank and a default was given.
   */
  function GetOrDefault(a: Attributes, path: string, defaultValue: Value): (r: Value)
    ensures !IsBlank(Get(a, path)) ==> r == Get(a, path)
    ensures IsBlank(Get(a, path)) && defaultValue != Undefined ==> r == defaultValue
    ensures defaultValue == Undefined ==> r == Get(a, path)
  {
    // A direct read and a path read coincide for a flat key.
    var value := Get(a, path);
    if defaultValue == Undefined && value != Undefined then value
    else if value == Null || value == Undefined || value == Str("") then defaultValue
    else value
  }

  /** An object with numeric id; the subclass's validator is passed to `Validate`. */
  class BaseObject {
    var attributes: Attributes
    var isValid: bool
    var errors: seq<string>
    var deleted: bool

    constructor (attributes: Attributes, freshUuid: string)
      ensures this.attributes == PrepareAttributes(attributes, freshUuid)
      ensures !isValid && errors == [] && !deleted
    {
      this.attributes := PrepareAttributes(attributes, freshUuid);
      isValid := false;
      errors := [];
      deleted := false;
    }

    /**
     * `set(path, value)`: fails, changing nothing, on a frozen object unless
     * the path is `is_frozen`; otherwise afterwards the path reads as the
     * value and every other key reads as before.
     */
    method Set(path: string, value: Value) returns (r: Outcome)
      modifies this`attributes
      ensures r.Failed? <==> IsFrozen(old(attributes)) && path != "is_frozen"
      ensures r.Failed? ==> r.message == SetMessage(path) && attributes == old(attributes)
      ensures r.Done? ==> forall k :: Get(attributes, k) == if k == path then value else Get(old(attributes), k)
      ensures r.Done? ==> old(attributes).Keys <= attributes.Keys <= old(attributes).Keys + {path}
    {
      if IsFrozen(attributes) && path != "is_frozen" {
        return Failed(SetMessage(path));
      }
      var oldValue := Get(attributes, path);
      if oldValue != value {
        attributes := attributes[path := value];
      }
      r := Done;
    }

    /**
     * `mergeAttributes(u)`: fails, changing nothing, on a frozen object unless
     * `u` sets `is_frozen` to false; otherwise the attributes become the merge.
     */
    method MergeAttributes(updatedAttributes: Attributes) returns (r: Outcome)
      modifies this`attributes
      ensures r.Failed? <==> IsFrozen(old(attributes)) && Get(updatedAttributes, "is_frozen") != Bool(false)
      ensures r.Failed? ==> r.message == MergeMessage && attributes == old(attributes)
      ensures r.Done? ==> attributes == Merge(old(attributes), updatedAttributes)
    {
      if IsFrozen(attributes) && Get(updatedAttributes, "is_frozen") != Bool(false) {
        return Failed(MergeMessage);
      }
      attributes := Merge(attributes, updatedAttributes);
      r := Done;
    }

    /** `validate()`: store and return the validator's verdict, and store its errors. */
    method Validate(validator: Attributes -> (bool, seq<string>)) returns (r: bool)
      modifies this`isValid, this`errors
      ensures r == validator(attributes).0
      ensures isValid == r && errors == validator(attributes).1
    {
      var (valid, errs) := validator(attributes);
      errors := errs;
      isValid := valid;
      r := valid;
    }

    method GetErrors() returns (r: seq<string>)
      ensures r == errors
    {
      r := errors;
    }

    method IsDeleted() returns (r: bool)
      ensures r == deleted
    {
      r := deleted;
    }

    /** Marking as deleted is one-way: no method clears the mark. */
    method SetDeleted()
      modifies this`deleted
      ensures deleted
    {
      deleted := true;
    }
  }
}
