/**
  The state scripts/site.js keeps between events: the `fetchJson` cache, the
  submissions stored in the browser's local storage, and for each form bound
  by `bindAjaxForm` its `onSuccess` handler, its "bound" flag, its listeners
  and the reset that keeps `data-preserve` fields. The network, the clock and
  JSON parsing are parameters.
*/
module SiteState {
  import opened Wrappers
  import opened Seqs

  /** What `fetch` gives for a path: an answer (ok or not) whose body parses as JSON or not, or a network error. */
  datatype Reply<J> = Answered(ok: bool, body: Result<J, string>) | NetworkError(message: string)

  /** The outcome of a `fetchJson` that misses the cache. */
  function Fetched<J>(path: string, reply: Reply<J>): (r: Result<J, string>)
    ensures r.Success? <==> reply.Answered? && reply.ok && reply.body.Success?
    ensures r.Success? ==> r.value == reply.body.value
    ensures reply.Answered? && !reply.ok ==> r == Failure("Impossible de charger " + path)
  {
    match reply
    case NetworkError(m) => Failure(m)
    case Answered(ok, body) =>
      if !ok then Failure("Impossible de charger " + path)
      else if body.Failure? then Failure(body.error)
      else Success(body.value)
  }

  /** The `cache` map of `fetchJson`. */
  class JsonCache<J> {
    var entries: map<string, J>
    /** Every path actually requested from the network, oldest first. */
    ghost var requested: seq<string>

    /** Only what was fetched is cached. */
    ghost predicate Valid()
      reads this
    {
      forall path :: path in entries ==> path in requested
    }

    constructor ()
      ensures Valid() && entries == map[] && requested == []
    {
      entries := map[];
      requested := [];
    }

    /**
      `fetchJson`: a cached path is answered from the cache without a request;
      otherwise the path is requested and only a successful answer is cached.
    */
    method FetchJson(path: string, fetch: string -> Reply<J>) returns (r: Result<J, string>)
      requires Valid()
      modifies this
      ensures Valid()
      ensures path in old(entries) ==>
        r == Success(old(entries)[path]) && entries == old(entries) && requested == old(requested)
      ensures path !in old(entries) ==>
        && requested == old(requested) + [path]
        && r == Fetched(path, fetch(path))
        && entries == if r.Success? then old(entries)[path := r.value] else old(entries)
    {
      if path in entries {
        return Success(entries[path]);
      }
      requested := requested + [path];
      r := Fetched(path, fetch(path));
      if r.Success? {
        entries := entries[path := r.value];
      }
    }
  }

  /**
    The map built by setting `key(x)` to `val(x)` for each `x` of `s` that
    passes `keep`, in order: the last value set for a key is the one kept.
  */
  function LastWins<T>(s: seq<T>, keep: T -> bool, key: T -> string, val: T -> string): map<string, string>
    decreases |s|
  {
    if s == [] then map[]
    else
      var rest := LastWins(s[..|s| - 1], keep, key, val);
      var x := s[|s| - 1];
      if keep(x) then rest[key(x) := val(x)] else rest
  }

  /** Some element of `s` that passes `keep` has key `k`. */
  predicate HasKey<T>(s: seq<T>, keep: T -> bool, key: T -> string, k: string) {
    exists i :: 0 <= i < |s| && keep(s[i]) && key(s[i]) == k
  }

  /** The keys of the map are exactly the keys of the elements that pass. */
  lemma {:induction false} LastWinsKeys<T>(s: seq<T>, keep: T -> bool, key: T -> string, val: T -> string, k: string)
    ensures k in LastWins(s, keep, key, val) <==> HasKey(s, keep, key, k)
    decreases |s|
  {
    if s != [] {
      var init := s[..|s| - 1];
      var x := s[|s| - 1];
      LastWinsKeys(init, keep, key, val, k);
      if HasKey(init, keep, key, k) {
        var i :| 0 <= i < |init| && keep(init[i]) && key(init[i]) == k;
        assert s[i] == init[i];
      }
      if HasKey(s, keep, key, k) && !(keep(x) && key(x) == k) {
        var i :| 0 <= i < |s| && keep(s[i]) && key(s[i]) == k;
        assert i < |s| - 1 && init[i] == s[i];
      }
    }
  }

  /** The value kept for a key is the one set by the last element that passes with that key. */
  lemma {:induction false} LastWinsValue<T>(s: seq<T>, keep: T -> bool, key: T -> string, val: T -> string, i: int)
    requires 0 <= i < |s| && keep(s[i])
    requires forall j :: i < j < |s| && keep(s[j]) ==> key(s[j]) != key(s[i])
    ensures key(s[i]) in LastWins(s, keep, key, val)
    ensures LastWins(s, keep, key, val)[key(s[i])] == val(s[i])
    decreases |s|
  {
    if i < |s| - 1 {
      var init := s[..|s| - 1];
      assert init[i] == s[i];
      LastWinsValue(init, keep, key, val, i);
    }
  }

  const Honeypot := "_gotcha"
  const CreatedAt := "createdAt"

  function NotHoneypot(field: (string, string)): bool {
    field.0 != Honeypot
  }

  function FieldName(field: (string, string)): string {
    field.0
  }

  function FieldValue(field: (string, string)): string {
    field.1
  }

  /** The `payload` object built from the form's entries: every entry but the honeypot, later entries winning. */
  function Payload(entries: seq<(string, string)>): map<string, string> {
    LastWins(entries, NotHoneypot, FieldName, FieldValue)
  }

  /** The stored entry: the payload with its `createdAt` time stamp. */
  function Entry(entries: seq<(string, string)>, now: string): (e: map<string, string>)
    ensures CreatedAt in e && e[CreatedAt] == now
    ensures forall k :: k in e <==> k == CreatedAt || k in Payload(entries)
  {
    Payload(entries)[CreatedAt := now]
  }

  /**
    A stored entry holds every field of the form but the honeypot (with the
    last value given for it) and the time stamp, and nothing else.
  */
  lemma EntryContents(entries: seq<(string, string)>, now: string, k: string)
    requires k != CreatedAt
    ensures k in Entry(entries, now) <==> k != Honeypot && exists i :: 0 <= i < |entries| && entries[i].0 == k
  {
    LastWinsKeys(entries, NotHoneypot, FieldName, FieldValue, k);
    if exists i :: 0 <= i < |entries| && entries[i].0 == k {
      var i :| 0 <= i < |entries| && entries[i].0 == k;
      if k != Honeypot {
        assert NotHoneypot(entries[i]) && FieldName(entries[i]) == k;
      }
    }
  }

  /** The value stored for a field is the last one the form gave for it. */
  lemma EntryValue(entries: seq<(string, string)>, now: string, i: int)
    requires 0 <= i < |entries| && entries[i].0 != Honeypot && entries[i].0 != CreatedAt
    requires forall j :: i < j < |entries| ==> entries[j].0 != entries[i].0
    ensures entries[i].0 in Entry(entries, now) && Entry(entries, now)[entries[i].0] == entries[i].1
  {
    LastWinsValue(entries, NotHoneypot, FieldName, FieldValue, i);
  }

  /** What local storage holds under a key, as `JSON.parse(getItem(key) || '[]')` reads it. */
  datatype Stored =
    | Log(entries: seq<map<string, string>>)   // a JSON array
    | Blank                                   // the empty string
    | NotALog                                 // text that does not parse, or a value that is not an array

  /** The list a new entry is pushed onto; `None` where parsing or `push` throws. */
  function Existing(slots: map<string, Stored>, key: string): Option<seq<map<string, string>>> {
    if key !in slots || slots[key].Blank? then Some([])
    else if slots[key].Log? then Some(slots[key].entries)
    else None
  }

  /** Local storage after one submission is stored under `key`. */
  function AfterStore(slots: map<string, Stored>, key: string, entries: seq<(string, string)>, now: string)
    : (r: map<string, Stored>)
    ensures Existing(slots, key).None? ==> r == slots
    ensures Existing(slots, key).Some? ==>
      key in r && r[key] == Log(Existing(slots, key).value + [Entry(entries, now)])
    ensures forall k :: k != key ==> (k in r <==> k in slots) && (k in slots ==> r[k] == slots[k])
  {
    var existing := Existing(slots, key);
    if existing.None? then slots
    else slots[key := Log(existing.value + [Entry(entries, now)])]
  }

  /** The browser's local storage, as far as stored submissions go. */
  class SubmissionStore {
    var slots: map<string, Stored>

    constructor (slots: map<string, Stored>)
      ensures this.slots == slots
    {
      this.slots := slots;
    }

    /** The block guarded by `form.dataset.store`: the entry is appended to the list stored under `key`. */
    method Store(key: string, entries: seq<(string, string)>, now: string)
      modifies this
      ensures slots == AfterStore(old(slots), key, entries, now)
    {
      var existing := Existing(slots, key);
      if existing.None? {
        return;
      }
      var payload := BuildPayload(entries);
      slots := slots[key := Log(existing.value + [payload[CreatedAt := now]])];
    }
  }

  /** The `formData.forEach` loop that fills `payload`. */
  method BuildPayload(entries: seq<(string, string)>) returns (payload: map<string, string>)
    ensures payload == Payload(entries)
  {
    payload := map[];
    for i := 0 to |entries|
      invariant payload == Payload(entries[..i])
    {
      assert entries[..i + 1][..i] == entries[..i];
      if entries[i].0 != Honeypot {
        payload := payload[entries[i].0 := entries[i].1];
      }
    }
    assert entries[..|entries|] == entries;
  }

  /** A control of a bound form. */
  datatype Field = Field(name: string, value: string, defaultValue: string, preserve: bool)

  /** `form.__onSuccess`. */
  datatype Handler = Undefined | Null | Callback(id: nat)

  /** The entries `new FormData(form)` lists: the named controls, in order. */
  function FormEntries(fields: seq<Field>): (r: seq<(string, string)>)
    ensures |r| <= |fields|
    ensures forall i :: 0 <= i < |r| ==> r[i].0 != ""
  {
    if fields == [] then []
    else (if fields[0].name != "" then [(fields[0].name, fields[0].value)] else []) + FormEntries(fields[1..])
  }

  /** A control `FormData` lists: one with a name. */
  predicate IsNamed(f: Field) {
    f.name != ""
  }

  /** The name-value pair of each control. */
  function Pairs(fields: seq<Field>): (r: seq<(string, string)>)
    ensures |r| == |fields|
    ensures forall i :: 0 <= i < |fields| ==> r[i] == (fields[i].name, fields[i].value)
  {
    seq(|fields|, i requires 0 <= i < |fields| => (fields[i].name, fields[i].value))
  }

  /** Listing the pairs of two runs of controls lists each run in turn. */
  lemma PairsConcat(a: seq<Field>, b: seq<Field>)
    ensures Pairs(a + b) == Pairs(a) + Pairs(b)
  {
  }

  /** The form data are the pairs of the named controls, in the order of the controls (`Filter` keeps it). */
  lemma {:induction false} FormEntriesOfNamed(fields: seq<Field>)
    ensures FormEntries(fields) == Pairs(Filter(fields, IsNamed))
  {
    if fields != [] {
      FormEntriesOfNamed(fields[1..]);
      var head := if IsNamed(fields[0]) then [fields[0]] else [];
      assert Filter(fields, IsNamed) == head + Filter(fields[1..], IsNamed);
      PairsConcat(head, Filter(fields[1..], IsNamed));
    }
  }

  /** Every named control contributes its name-value pair to the form data. */
  lemma NamedFieldListed(fields: seq<Field>, i: int)
    requires 0 <= i < |fields| && IsNamed(fields[i])
    ensures (fields[i].name, fields[i].value) in FormEntries(fields)
  {
    FormEntriesOfNamed(fields);
    var kept := Filter(fields, IsNamed);
    assert fields[i] in multiset(fields);
    assert fields[i] in multiset(kept);
    var k :| 0 <= k < |kept| && kept[k] == fields[i];
    assert FormEntries(fields)[k] == (fields[i].name, fields[i].value);
  }

  /** Every entry of the form data is the name-value pair of a named control. */
  lemma EntryOfNamedField(fields: seq<Field>, j: int)
    requires 0 <= j < |FormEntries(fields)|
    ensures exists i :: 0 <= i < |fields| && IsNamed(fields[i]) && FormEntries(fields)[j] == (fields[i].name, fields[i].value)
  {
    FormEntriesOfNamed(fields);
    var kept := Filter(fields, IsNamed);
    assert kept[j] in multiset(kept);
    assert kept[j] in multiset(fields);
    var i :| 0 <= i < |fields| && fields[i] == kept[j];
    assert IsNamed(fields[i]);
    assert FormEntries(fields)[j] == (fields[i].name, fields[i].value);
  }

  function IsPreserved(f: Field): bool {
    f.preserve
  }

  function NameOf(f: Field): string {
    f.name
  }

  function ValueOf(f: Field): string {
    f.value
  }

  /** The `preserved` map: for each name, the value of the last `data-preserve` control with that name. */
  function Preserved(fields: seq<Field>): map<string, string> {
    LastWins(fields, IsPreserved, NameOf, ValueOf)
  }

  /** No earlier control has the same name: `querySelector('[name=…]')` finds this one. */
  predicate FirstOfName(fields: seq<Field>, i: int)
    requires 0 <= i < |fields|
  {
    forall j :: 0 <= j < i ==> fields[j].name != fields[i].name
  }

  /**
    `querySelector('[name="…"]')`: the first control with a given name. A
    control without a name attribute has the name "" here, and `[name=""]`
    does not select it, so the empty name selects nothing.
  */
  function IndexOfName(fields: seq<Field>, name: string): (r: Option<nat>)
    ensures r.None? <==> name == "" || forall i :: 0 <= i < |fields| ==> fields[i].name != name
    ensures r.Some? ==> r.value < |fields| && fields[r.value].name == name && FirstOfName(fields, r.value)
  {
    if name == "" || fields == [] then None
    else if fields[0].name == name then Some(0)
    else
      var r := IndexOfName(fields[1..], name);
      if r.Some? then Some(r.value + 1) else None
  }

  /** The value a control has after `form.reset()` and the restoring of the preserved values. */
  function RestoredValue(fields: seq<Field>, i: int): string
    requires 0 <= i < |fields|
  {
    var name := fields[i].name;
    if name != "" && name in Preserved(fields) && FirstOfName(fields, i) then Preserved(fields)[name]
    else fields[i].defaultValue
  }

  /** The controls after the post-success reset. */
  function Restored(fields: seq<Field>): (r: seq<Field>)
    ensures |r| == |fields|
    ensures forall i :: 0 <= i < |fields| ==> r[i] == fields[i].(value := RestoredValue(fields, i))
  {
    seq(|fields|, i requires 0 <= i < |fields| => fields[i].(value := RestoredValue(fields, i)))
  }

  /**
    A named `data-preserve` control that is the first of its name, with no
    later preserved control of that name, keeps its value across the reset.
  */
  lemma PreservedKeepsValue(fields: seq<Field>, i: int)
    requires 0 <= i < |fields| && fields[i].preserve && fields[i].name != "" && FirstOfName(fields, i)
    requires forall j :: i < j < |fields| && fields[j].preserve ==> fields[j].name != fields[i].name
    ensures Restored(fields)[i].value == fields[i].value
  {
    LastWinsValue(fields, IsPreserved, NameOf, ValueOf, i);
  }

  /** A control whose name no `data-preserve` control has goes back to its default value. */
  lemma OthersReset(fields: seq<Field>, i: int)
    requires 0 <= i < |fields|
    requires forall j :: 0 <= j < |fields| && fields[j].preserve ==> fields[j].name != fields[i].name
    ensures Restored(fields)[i].value == fields[i].defaultValue
  {
    LastWinsKeys(fields, IsPreserved, NameOf, ValueOf, fields[i].name);
  }

  /** A control without a name goes back to its default value, even when it is marked `data-preserve`. */
  lemma UnnamedReset(fields: seq<Field>, i: int)
    requires 0 <= i < |fields| && fields[i].name == ""
    ensures Restored(fields)[i].value == fields[i].defaultValue
  {
  }

  /** Two control lists that differ at most in their values. */
  predicate SameNames(a: seq<Field>, b: seq<Field>) {
    |a| == |b| && forall i :: 0 <= i < |a| ==> a[i].name == b[i].name
  }

  lemma IndexOfSameNames(a: seq<Field>, b: seq<Field>, name: string)
    requires SameNames(a, b)
    ensures IndexOfName(a, name) == IndexOfName(b, name)
  {
    if a != [] && a[0].name != name {
      IndexOfSameNames(a[1..], b[1..], name);
    }
  }

  /**
    The values of the `data-preserve` controls are collected by name, the
    form is reset, and each collected value is written to the first control
    with that name.
  */
  method RestoreFields(fields: seq<Field>) returns (after: seq<Field>)
    ensures after == Restored(fields)
  {
    var values, keys := CollectPreserved(fields);
    after := WritePreserved(fields, values, keys);
    assert keys[..|keys|] == keys;
  }

  /** The `preserved` map, with its keys in the order they were first set. */
  method CollectPreserved(fields: seq<Field>) returns (values: map<string, string>, keys: seq<string>)
    ensures values == Preserved(fields)
    ensures forall k :: k in values <==> k in keys
    ensures forall a, b :: 0 <= a < b < |keys| ==> keys[a] != keys[b]
  {
    values := map[];
    keys := [];
    for i := 0 to |fields|
      invariant values == Preserved(fields[..i])
      invariant forall k :: k in values <==> k in keys
      invariant forall a, b :: 0 <= a < b < |keys| ==> keys[a] != keys[b]
    {
      assert fields[..i + 1][..i] == fields[..i];
      if fields[i].preserve {
        if fields[i].name !in values {
          keys := keys + [fields[i].name];
        }
        values := values[fields[i].name := fields[i].value];
      }
    }
    assert fields[..|fields|] == fields;
  }

  /** The controls of `fields` after `form.reset()`, then the value of each key written to the first control with that name. */
  function WrittenValue(fields: seq<Field>, values: map<string, string>, written: seq<string>, i: int): string
    requires 0 <= i < |fields|
    requires forall k :: k in written ==> k in values
  {
    if fields[i].name != "" && fields[i].name in written && FirstOfName(fields, i) then values[fields[i].name]
    else fields[i].defaultValue
  }

  /** The form reset, then `field.value = value` for each collected key in turn. */
  method WritePreserved(fields: seq<Field>, values: map<string, string>, keys: seq<string>) returns (after: seq<Field>)
    requires forall k :: k in keys ==> k in values
    requires forall a, b :: 0 <= a < b < |keys| ==> keys[a] != keys[b]
    ensures |after| == |fields|
    ensures forall i :: 0 <= i < |fields| ==> after[i] == fields[i].(value := WrittenValue(fields, values, keys, i))
  {
    after := seq(|fields|, i requires 0 <= i < |fields| => fields[i].(value := fields[i].defaultValue));
    for j := 0 to |keys|
      invariant SameNames(after, fields)
      invariant forall i :: 0 <= i < |fields| ==> after[i] == fields[i].(value := WrittenValue(fields, values, keys[..j], i))
    {
      IndexOfSameNames(after, fields, keys[j]);
      var target := IndexOfName(after, keys[j]);
      NextKey(keys, j);
      WriteStep(fields, values, keys[..j], keys[j], target);
      if target.Some? {
        after := after[target.value := after[target.value].(value := values[keys[j]])];
      }
    }
    assert keys[..|keys|] == keys;
  }

  /** Writing key `k` changes the written value of its first control only. */
  lemma WriteStep(fields: seq<Field>, values: map<string, string>, before: seq<string>, k: string, target: Option<nat>)
    requires forall x :: x in before ==> x in values
    requires k in values && k !in before
    requires target == IndexOfName(fields, k)
    ensures forall i :: 0 <= i < |fields| ==>
      WrittenValue(fields, values, before + [k], i)
        == if target.Some? && i == target.value then values[k] else WrittenValue(fields, values, before, i)
  {
    forall i | 0 <= i < |fields|
      ensures WrittenValue(fields, values, before + [k], i)
        == if target.Some? && i == target.value then values[k] else WrittenValue(fields, values, before, i)
    {
      if fields[i].name == k && k != "" && !(target.Some? && i == target.value) {
        assert target.Some?;
        if i > target.value {
          assert fields[target.value].name == fields[i].name;
        }
        assert !FirstOfName(fields, i);
      }
    }
  }

  /** The keys written so far, one more, are a prefix of distinct keys. */
  lemma NextKey(keys: seq<string>, j: int)
    requires forall a, b :: 0 <= a < b < |keys| ==> keys[a] != keys[b]
    requires 0 <= j < |keys|
    ensures keys[..j + 1] == keys[..j] + [keys[j]]
    ensures keys[j] !in keys[..j]
  {
    assert keys[j] !in keys[..j] by {
      forall a | 0 <= a < j
        ensures keys[..j][a] != keys[j]
      {
        assert keys[..j][a] == keys[a];
      }
    }
  }

  /** A form handled by `bindAjaxForm`. */
  class AjaxForm {
    var fields: seq<Field>
    /** `data-store`: the local storage key, "" when there is none. */
    const storeKey: string
    var onSuccess: Handler
    /** `dataset.bound === 'true'`. */
    var bound: bool
    /** The submit listeners attached. */
    var listeners: nat

    /** A listener is attached exactly when the form is marked bound. */
    ghost predicate Valid()
      reads this
    {
      listeners == if bound then 1 else 0
    }

    constructor (fields: seq<Field>, storeKey: string)
      ensures Valid()
      ensures this.fields == fields && this.storeKey == storeKey
      ensures onSuccess == Undefined && !bound && listeners == 0
    {
      this.fields := fields;
      this.storeKey := storeKey;
      onSuccess := Undefined;
      bound := false;
      listeners := 0;
    }

    /**
      `bindAjaxForm(form, { onSuccess })`: a given handler replaces the stored
      one, a missing one leaves it (an undefined one becomes null); the submit
      listener is attached only on the first call.
    */
    method Bind(callback: Option<nat>)
      requires Valid()
      modifies this
      ensures Valid()
      ensures onSuccess == if callback.Some? then Callback(callback.value)
                           else if old(onSuccess) == Undefined then Null else old(onSuccess)
      ensures bound && listeners == 1
      ensures fields == old(fields)
    {
      if callback.Some? {
        onSuccess := Callback(callback.value);
      } else if onSuccess == Undefined {
        onSuccess := Null;
      }
      if bound {
        return;
      }
      bound := true;
      listeners := listeners + 1;
    }

    /** The reset after a successful submission. */
    method ResetPreserving()
      modifies this
      ensures fields == Restored(old(fields))
      ensures onSuccess == old(onSuccess) && bound == old(bound) && listeners == old(listeners)
    {
      fields := RestoreFields(fields);
    }

    /**
      A successful submission: the entry is stored when the form names a
      storage key, the form is reset keeping its preserved values, and the
      `onSuccess` handler, if it is a function, is the one to call.
    */
    method Succeeded(store: SubmissionStore, now: string) returns (call: Option<nat>)
      requires Valid()
      modifies this, store
      ensures Valid()
      ensures store.slots == if storeKey != "" then AfterStore(old(store.slots), storeKey, FormEntries(old(fields)), now)
                             else old(store.slots)
      ensures fields == Restored(old(fields))
      ensures call == if onSuccess.Callback? then Some(onSuccess.id) else None
      ensures onSuccess == old(onSuccess) && bound == old(bound)
    {
      if storeKey != "" {
        store.Store(storeKey, FormEntries(fields), now);
      }
      ResetPreserving();
      call := if onSuccess.Callback? then Some(onSuccess.id) else None;
    }
  }
}
