/**
 The response mapping of a connector: the approval-time check of its required fields, and what the executor
 then takes out of a response (app/connector_config/validation.py:21-55, app/connector_executor.py:243-316).
 */
module ResponseMapping {
  import opened Common
  import opened Json
  import opened JsonStructure
  import opened JsonWriter
  import opened Template

  function Required(trigger: string): set<string> {
    if trigger == "order_status" || trigger == "ticket_status" then {"docket_no", "ticket_status"}
    else if trigger == "ticket_create" then {"ticket_id"}
    else if trigger == "payment_status" then {"payment_status"}
    else {}
  }

  type Value = Json<PyStr>
  type Members = seq<Member<PyStr>>

  const NULL: Value := JBare("null")

  // A repeated member name counts with its last value.
  function Lookup(ms: Members, name: PyStr): (r: Option<Value>)
    ensures r.None? <==> forall i :: 0 <= i < |ms| ==> ms[i].key != name
  {
    if ms == [] then None
    else if ms[|ms| - 1].key == name then Some(ms[|ms| - 1].value)
    else Lookup(ms[..|ms| - 1], name)
  }

  // The list under "fields", when the mapping is written in that style.
  function FieldList(ms: Members): Option<seq<Value>> {
    var f := Lookup(ms, Codes("fields"));
    if f.Some? && f.value.JArr? then Some(f.value.items) else None
  }

  function FieldOf(spec: Value): Option<Value> {
    if spec.JObj? then Lookup(spec.members, Codes("field")) else None
  }

  // ---------------------------------------------------------------- validation

  // A Python set holds no list and no dict: such a field name makes the comprehension raise.
  predicate Hashable(items: seq<Value>) {
    forall i :: 0 <= i < |items| && FieldOf(items[i]).Some? ==>
      !FieldOf(items[i]).value.JArr? && !FieldOf(items[i]).value.JObj?
  }

  predicate Lists(items: seq<Value>, name: PyStr) {
    exists i :: 0 <= i < |items| && FieldOf(items[i]) == Some(JStr(name))
  }

  // _extract_configured_fields has this name in its result.
  predicate Configured(ms: Members, name: PyStr) {
    match FieldList(ms)
    case Some(items) => Lists(items, name)
    case None => name != Codes("pagination") && Lookup(ms, name).Some?
  }

  // _validate_response_mapping_fields returns without raising.
  predicate Accepts(trigger: string, mapping: Option<string>) {
    Required(trigger) == {} ||
    (mapping.Some? && mapping.value != "" &&
     var j := Loads(mapping.value);
     j.Some? && j.value.JObj? && AcceptsObject(trigger, j.value.members))
  }

  predicate AcceptsObject(trigger: string, ms: Members) {
    && (FieldList(ms).Some? ==> Hashable(FieldList(ms).value))
    && forall name :: name in Required(trigger) ==> Configured(ms, Codes(name))
  }

  // A field of this name is configured: listed, or a member of its own where there is no list.
  predicate Has(ms: Members, name: string) {
    var fields := Lookup(ms, Codes("fields"));
    if fields.Some? && fields.value.JArr?
    then exists i :: 0 <= i < |fields.value.items| && FieldOf(fields.value.items[i]) == Some(JStr(Codes(name)))
    else name != "pagination" && Lookup(ms, Codes(name)).Some?
  }

  predicate NamesAreScalar(ms: Members) {
    var fields := Lookup(ms, Codes("fields"));
    fields.Some? && fields.value.JArr? ==>
      forall i :: 0 <= i < |fields.value.items| ==>
        var f := FieldOf(fields.value.items[i]);
        f.Some? ==> f.value.JStr? || f.value.JBare?
  }

  lemma ScalarsAreHashable(ms: Members)
    ensures NamesAreScalar(ms) <==> (FieldList(ms).Some? ==> Hashable(FieldList(ms).value))
  {}

  // What approval asks of a mapping, trigger by trigger, and nothing more.
  lemma ApprovalAsks(ms: Members, trigger: string)
    ensures trigger == "order_status" || trigger == "ticket_status" ==>
              (AcceptsObject(trigger, ms) <==> NamesAreScalar(ms) && Has(ms, "docket_no") && Has(ms, "ticket_status"))
    ensures trigger == "ticket_create" ==>
              (AcceptsObject(trigger, ms) <==> NamesAreScalar(ms) && Has(ms, "ticket_id"))
    ensures trigger == "payment_status" ==>
              (AcceptsObject(trigger, ms) <==> NamesAreScalar(ms) && Has(ms, "payment_status"))
    ensures trigger !in {"order_status", "ticket_status", "ticket_create", "payment_status"} ==>
              forall mapping :: Accepts(trigger, mapping)
  {
    ScalarsAreHashable(ms);
    assert forall name :: name in Required(trigger) ==> name != "pagination" && Codes(name) != Codes("pagination") by {
      forall name | name in Required(trigger) ensures name != "pagination" && Codes(name) != Codes("pagination") {
        assert |name| != |"pagination"|;
      }
    }
  }

  // A mapping is read from its text: one that was written from an object is accepted exactly when the object is.
  lemma WrittenMappings(trigger: string, ms: Members)
    requires Required(trigger) != {} && BaresOk(JObj(ms)) && Everywhere(Whole(), JObj(ms))
    ensures Accepts(trigger, Some(Write(JObj(ms)))) <==> AcceptsObject(trigger, ms)
  {
    DumpsThenLoads(JObj(ms));
  }

  // ---------------------------------------------------------------- execution

  // What the executor asks of its libraries: what a path finds in a response (null too when the search raises),
  // whether a pattern compiles, its first match in a text, and which number texts are read as zero.
  datatype Library = Library(search: (Value, Value) -> Value, compiles: PyStr -> bool,
                             find: (PyStr, PyStr) -> Option<PyStr>, zero: string -> bool)
  {
    // What Python takes for true.
    predicate Truth(v: Value) {
      match v
      case JStr(s) => s != []
      case JBare(text) => text != "null" && text != "false" && !(IsNumber(text) && zero(text))
      case JArr(items) => items != []
      case JObj(members) => members != []
    }
  }

  // spec.get(name)
  function Get(spec: Value, name: string): Value {
    var v := if spec.JObj? then Lookup(spec.members, Codes(name)) else None;
    if v.Some? then v.value else NULL
  }

  function NameOf(spec: Value): Value {
    Get(spec, "field")
  }

  function Found(lib: Library, spec: Value, response: Value): Value {
    if lib.Truth(Get(spec, "path")) then lib.search(Get(spec, "path"), response) else NULL
  }

  // re.search raises on this pattern, whatever the text.
  predicate BadPattern(lib: Library, spec: Value) {
    var regex := Get(spec, "extract_regex");
    lib.Truth(regex) && !(regex.JStr? && lib.compiles(regex.s))
  }

  // The entry is reached, its path finds a text, and the pattern it is searched with raises.
  predicate Trips(lib: Library, spec: Value, response: Value) {
    lib.Truth(NameOf(spec)) && BadPattern(lib, spec) && Found(lib, spec, response).JStr?
  }

  // A list or an object cannot be the key of a dict.
  predicate BadName(lib: Library, spec: Value) {
    lib.Truth(NameOf(spec)) && (NameOf(spec).JArr? || NameOf(spec).JObj?)
  }

  // The value of an entry that does not trip: the match when there is a pattern and it matches a text.
  function Extracted(lib: Library, spec: Value, response: Value): Value {
    var value, regex := Found(lib, spec, response), Get(spec, "extract_regex");
    if !(lib.Truth(regex) && value.JStr? && regex.JStr?) then value else
    match lib.find(regex.s, value.s)
    case Some(part) => JStr(part)
    case None => value
  }

  // The result after one more entry, as far as its keys are strings; None when it raised.
  function Step(lib: Library, values: map<PyStr, Value>, spec: Value, response: Value): Option<map<PyStr, Value>> {
    if Trips(lib, spec, response) || BadName(lib, spec) then None
    else if NameOf(spec).JStr? && NameOf(spec).s != []
    then Some(values[NameOf(spec).s := Extracted(lib, spec, response)])
    else Some(values)
  }

  function Collect(lib: Library, specs: seq<Value>, n: nat, response: Value): Option<map<PyStr, Value>>
    requires n <= |specs|
  {
    if n == 0 then Some(map[]) else
    var before := Collect(lib, specs, n - 1, response);
    if before.None? then None else Step(lib, before.value, specs[n - 1], response)
  }

  function Entry(name: PyStr, path: Value, regex: Value): Value {
    JObj([Member(Codes("field"), JStr(name)), Member(Codes("path"), path), Member(Codes("extract_regex"), regex)])
  }

  // The entry that a member of the flat style stands for, if it is a path or an object.
  function EntrySpec(name: PyStr, v: Value): seq<Value> {
    if name == Codes("pagination") then [] else
    match v
    case JStr(_) => [Entry(name, v, NULL)]
    case JObj(_) => [Entry(name, Get(v, "path"), Get(v, "extract_regex"))]
    case _ => []
  }

  // The entries of the first n members. A repeated member has one value, so its entry may come more than once.
  function EntrySpecs(ms: Members, n: nat): seq<Value>
    requires n <= |ms|
  {
    if n == 0 then [] else
    EntrySpecs(ms, n - 1) + EntrySpec(ms[n - 1].key, Lookup(ms, ms[n - 1].key).value)
  }

  function Specs(ms: Members): seq<Value> {
    match FieldList(ms)
    case Some(items) => items
    case None => EntrySpecs(ms, |ms|)
  }

  predicate PaginationOk(ms: Members) {
    var pagination := Lookup(ms, Codes("pagination"));
    pagination.Some? ==> pagination.value.JObj?
  }

  // The executor raises, hands the response on as it is, or makes an object with these values.
  datatype Mapped = Raised | PassedOn(response: Value) | Fields(values: map<PyStr, Value>)

  // _apply_response_mapping on a mapping that is a JSON object. It raises on the .get of a pagination entry that
  // is not an object, on a field name that is not hashable, and on a pattern that re.search does not take.
  function Apply(lib: Library, ms: Members, response: Value): Mapped {
    if !PaginationOk(ms) then Raised
    else if Specs(ms) == [] then PassedOn(response) else
    match Collect(lib, Specs(ms), |Specs(ms)|, response)
    case Some(values) => Fields(values)
    case None => Raised
  }

  // _apply_response_mapping on the column as it is stored.
  function ApplyText(lib: Library, mapping: Option<string>, response: Value): Mapped {
    var j := if mapping.Some? then Loads(mapping.value) else None;
    if j.Some? && j.value.JObj? then Apply(lib, j.value.members, response) else PassedOn(response)
  }

  lemma {:induction false} StaysRaised(lib: Library, specs: seq<Value>, n: nat, m: nat, response: Value)
    requires n <= m <= |specs| && Collect(lib, specs, n, response).None?
    ensures Collect(lib, specs, m, response).None?
    decreases m
  {
    if n < m { StaysRaised(lib, specs, n, m - 1, response); }
  }

  // The body of the loop over the entries.
  method ReadField(lib: Library, values: map<PyStr, Value>, spec: Value, response: Value)
    returns (result: Option<map<PyStr, Value>>)
    ensures result == Step(lib, values, spec, response)
  {
    var name, path, regex := NameOf(spec), Get(spec, "path"), Get(spec, "extract_regex");
    if !spec.JObj? || !lib.Truth(name) { return Some(values); }
    var value := NULL;
    if lib.Truth(path) { value := lib.search(path, response); }
    if lib.Truth(regex) && value.JStr? {
      if !regex.JStr? || !lib.compiles(regex.s) { return None; }
      var part := lib.find(regex.s, value.s);
      if part.Some? { value := JStr(part.value); }
    }
    if name.JArr? || name.JObj? { return None; }
    return Some(if name.JStr? then values[name.s := value] else values);
  }

  method ReadFields(lib: Library, specs: seq<Value>, response: Value) returns (result: Option<map<PyStr, Value>>)
    ensures result == Collect(lib, specs, |specs|, response)
  {
    result := Some(map[]);
    for n := 0 to |specs|
      invariant result.Some? && Collect(lib, specs, n, response) == result
    {
      result := ReadField(lib, result.value, specs[n], response);
      if result.None? {
        StaysRaised(lib, specs, n + 1, |specs|, response);
        return;
      }
    }
  }

  method ApplyResponseMapping(lib: Library, mapping: Option<string>, response: Value) returns (result: Mapped)
    ensures result == ApplyText(lib, mapping, response)
  {
    if mapping.None? { return PassedOn(response); }
    var j := Loads(mapping.value);
    if j.None? || !j.value.JObj? { return PassedOn(response); }
    var ms := j.value.members;
    var pagination := Lookup(ms, Codes("pagination"));
    if pagination.Some? && !pagination.value.JObj? { return Raised; }
    var specs := [];
    if FieldList(ms).Some? {
      specs := FieldList(ms).value;
    } else {
      for n := 0 to |ms|
        invariant specs == EntrySpecs(ms, n)
      {
        specs := specs + EntrySpec(ms[n].key, Lookup(ms, ms[n].key).value);
      }
    }
    if specs == [] { return PassedOn(response); }
    var values := ReadFields(lib, specs, response);
    return if values.None? then Raised else Fields(values.value);
  }

  // ---------------------------------------------------------------- what the result holds

  // The last of the first n entries with this name.
  function LastFor(specs: seq<Value>, n: nat, name: PyStr): Option<Value>
    requires n <= |specs|
  {
    if n == 0 then None
    else if NameOf(specs[n - 1]) == JStr(name) then Some(specs[n - 1])
    else LastFor(specs, n - 1, name)
  }

  function ValueFor(lib: Library, specs: seq<Value>, n: nat, name: PyStr, response: Value): Option<Value>
    requires n <= |specs|
  {
    var last := LastFor(specs, n, name);
    if name == [] || last.None? then None else Some(Extracted(lib, last.value, response))
  }

  lemma StepExact(lib: Library, specs: seq<Value>, n: nat, response: Value, name: PyStr)
    requires n < |specs| && Collect(lib, specs, n + 1, response).Some? && Collect(lib, specs, n, response).Some?
    requires At(Fields(Collect(lib, specs, n, response).value), name) == ValueFor(lib, specs, n, name, response)
    ensures At(Fields(Collect(lib, specs, n + 1, response).value), name) == ValueFor(lib, specs, n + 1, name, response)
  {}

  ghost predicate Clear(lib: Library, specs: seq<Value>, n: nat, response: Value)
    requires n <= |specs|
  {
    forall i :: 0 <= i < n ==> !Trips(lib, specs[i], response) && !BadName(lib, specs[i])
  }

  // The loop raises exactly when an entry trips or has a name that is not hashable.
  lemma {:induction false} RaisedExactly(lib: Library, specs: seq<Value>, n: nat, response: Value)
    requires n <= |specs|
    ensures Collect(lib, specs, n, response).None? <==> !Clear(lib, specs, n, response)
  {
    if n > 0 { RaisedExactly(lib, specs, n - 1, response); }
  }

  // Otherwise a name is in the result exactly when it is not empty and some entry has it, and the last such
  // entry gives the value.
  lemma {:induction false} CollectedExactly(lib: Library, specs: seq<Value>, n: nat, response: Value, name: PyStr)
    requires n <= |specs| && Collect(lib, specs, n, response).Some?
    ensures At(Fields(Collect(lib, specs, n, response).value), name) == ValueFor(lib, specs, n, name, response)
  {
    if n > 0 {
      CollectedExactly(lib, specs, n - 1, response, name);
      StepExact(lib, specs, n - 1, response, name);
    }
  }

  // What the result has under a name; None also when the result is no object, or there is none.
  function At(r: Mapped, name: PyStr): Option<Value> {
    match r
    case Raised => None
    case PassedOn(response) => if response.JObj? then Lookup(response.members, name) else None
    case Fields(values) => if name in values then Some(values[name]) else None
  }

  predicate Names(trigger: string, r: Mapped) {
    forall name :: name in Required(trigger) ==> At(r, Codes(name)).Some?
  }

  // Every required field is there with a value, so that run_ticket_create, say, has a ticket id.
  predicate Delivers(trigger: string, r: Mapped) {
    forall name :: name in Required(trigger) ==> At(r, Codes(name)).Some? && At(r, Codes(name)).value != NULL
  }

  // In the flat style, the member gives an entry.
  predicate IsSpec(ms: Members, name: PyStr) {
    var v := Lookup(ms, name);
    name != Codes("pagination") && v.Some? && (v.value.JStr? || v.value.JObj?)
  }

  // ---------------------------------------------------------------- accepted mappings

  lemma CodesApart(s: string, t: string)
    requires forall i :: 0 <= i < |s| ==> s[i] as int < 0x80
    requires forall i :: 0 <= i < |t| ==> t[i] as int < 0x80
    requires s != t
    ensures Codes(s) != Codes(t)
  {
    if |s| == |t| {
      var i :| 0 <= i < |s| && s[i] != t[i];
      assert Codes(s)[i] != Codes(t)[i];
    }
  }

  lemma RequiredAreNames(trigger: string, name: string)
    requires name in Required(trigger)
    ensures Codes(name) != [] && Codes(name) != Codes("pagination")
  {
    assert |name| != |"pagination"|;
  }

  lemma EntryParts(name: PyStr, path: Value, regex: Value)
    ensures var spec := Entry(name, path, regex);
            FieldOf(spec) == Some(JStr(name)) && Get(spec, "path") == path && Get(spec, "extract_regex") == regex
  {
    CodesApart("field", "path");
    CodesApart("field", "extract_regex");
    CodesApart("path", "extract_regex");
    var ms := Entry(name, path, regex).members;
    assert |ms| == 3 && |ms[..2]| == 2 && ms[..2][..1] == [ms[0]];
    assert Lookup(ms, ms[2].key) == Some(ms[2].value);
    assert Lookup(ms, ms[1].key) == Lookup(ms[..2], ms[1].key) == Some(ms[1].value);
    assert Lookup(ms, ms[0].key) == Lookup(ms[..2], ms[0].key) == Lookup(ms[..2][..1], ms[0].key) == Some(ms[0].value);
  }

  function LastEntry(ms: Members, n: nat, name: PyStr): Option<Value> {
    if n > |ms| then None else LastFor(EntrySpecs(ms, n), |EntrySpecs(ms, n)|, name)
  }

  // In the flat style the entries are those of the usable members, each with its own value.
  lemma EntriesExact(ms: Members, name: PyStr)
    ensures LastEntry(ms, |ms|, name) == if Among(ms, |ms|, name) then EntryOf(ms, name) else None
  {
    forall n | 0 <= n < |ms|
      ensures LastEntry(ms, n + 1, name) ==
                if ms[n].key == name && EntryOf(ms, name).Some? then EntryOf(ms, name) else LastEntry(ms, n, name)
    {
      EntryAppends(ms, n, name);
    }
    Overwritten(n => LastEntry(ms, n, name), ms, |ms|, name, EntryOf(ms, name));
  }

  // What one overwrites with the same value again and again has it from the first time on.
  lemma {:induction false} Overwritten(f: nat -> Option<Value>, ms: Members, n: nat, name: PyStr, v: Option<Value>)
    requires n <= |ms| && f(0) == None
    requires forall i :: 0 <= i < |ms| ==> f(i + 1) == if ms[i].key == name && v.Some? then v else f(i)
    ensures f(n) == if Among(ms, n, name) then v else None
  {
    if n > 0 { Overwritten(f, ms, n - 1, name, v); }
  }

  predicate Among(ms: Members, n: nat, name: PyStr)
    requires n <= |ms|
  {
    n > 0 && (ms[n - 1].key == name || Among(ms, n - 1, name))
  }

  lemma {:induction false} AmongAll(ms: Members, n: nat, i: nat)
    requires i < n <= |ms|
    ensures Among(ms, n, ms[i].key)
  {
    if i < n - 1 { AmongAll(ms, n - 1, i); }
  }

  function EntryOf(ms: Members, name: PyStr): Option<Value> {
    if IsSpec(ms, name) then Some(EntrySpec(name, Lookup(ms, name).value)[0]) else None
  }

  lemma EntryAppends(ms: Members, n: nat, name: PyStr)
    requires n < |ms|
    ensures LastEntry(ms, n + 1, name) ==
              if ms[n].key == name && EntryOf(ms, name).Some? then EntryOf(ms, name) else LastEntry(ms, n, name)
  {
    var key, before := ms[n].key, EntrySpecs(ms, n);
    EntryIsSpec(ms, key);
    var more := EntrySpec(key, Lookup(ms, key).value);
    if more == [] {
      assert before + more == before;
    } else {
      LastAppends(before, more[0], name);
    }
  }

  lemma EntryIsSpec(ms: Members, name: PyStr)
    requires Lookup(ms, name).Some?
    ensures var specs := EntrySpec(name, Lookup(ms, name).value);
            if !IsSpec(ms, name) then specs == []
            else |specs| == 1 && specs == [specs[0]] && NameOf(specs[0]) == JStr(name)
  {
    var v := Lookup(ms, name).value;
    EntryParts(name, v, NULL);
    EntryParts(name, Get(v, "path"), Get(v, "extract_regex"));
  }

  lemma LastAppends(specs: seq<Value>, spec: Value, name: PyStr)
    ensures LastFor(specs + [spec], |specs| + 1, name) ==
              if NameOf(spec) == JStr(name) then Some(spec) else LastFor(specs, |specs|, name)
  {
    LastOfPrefix(specs, [spec], |specs|, name);
  }

  lemma {:induction false} LastOfPrefix(a: seq<Value>, b: seq<Value>, n: nat, name: PyStr)
    requires n <= |a|
    ensures LastFor(a + b, n, name) == LastFor(a, n, name)
  {
    if n > 0 { LastOfPrefix(a, b, n - 1, name); }
  }

  lemma {:induction false} ListedHasLast(specs: seq<Value>, n: nat, i: nat, name: PyStr)
    requires i < n <= |specs| && NameOf(specs[i]) == JStr(name)
    ensures LastFor(specs, n, name).Some?
  {
    if i < n - 1 { ListedHasLast(specs, n - 1, i, name); }
  }

  lemma {:induction false} EntriesHaveNames(ms: Members, n: nat)
    requires n <= |ms|
    ensures forall spec :: spec in EntrySpecs(ms, n) ==> NameOf(spec).JStr?
  {
    if n > 0 {
      EntriesHaveNames(ms, n - 1);
      EntryHasName(ms[n - 1].key, Lookup(ms, ms[n - 1].key).value);
    }
  }

  lemma EntryHasName(name: PyStr, v: Value)
    ensures forall spec :: spec in EntrySpec(name, v) ==> NameOf(spec).JStr?
  {
    EntryParts(name, v, NULL);
    EntryParts(name, Get(v, "path"), Get(v, "extract_regex"));
  }

  // The mapping lists its fields, or gives each required one a path or an object.
  predicate SpeaksForItself(trigger: string, ms: Members) {
    FieldList(ms).Some? || forall name :: name in Required(trigger) ==> IsSpec(ms, Codes(name))
  }

  ghost predicate NeverTrips(lib: Library, ms: Members) {
    forall spec, response :: spec in Specs(ms) && lib.Truth(NameOf(spec)) && BadPattern(lib, spec) ==>
      !Found(lib, spec, response).JStr?
  }

  ghost predicate NoneTrips(lib: Library, ms: Members, response: Value) {
    forall spec :: spec in Specs(ms) ==> !Trips(lib, spec, response)
  }

  lemma NamesAreGood(lib: Library, trigger: string, ms: Members, spec: Value)
    requires AcceptsObject(trigger, ms) && spec in Specs(ms)
    ensures !BadName(lib, spec)
  {
    if FieldList(ms).None? {
      EntriesHaveNames(ms, |ms|);
    } else {
      var items := FieldList(ms).value;
      var i :| 0 <= i < |items| && items[i] == spec;
      assert FieldOf(items[i]).Some? ==> !FieldOf(items[i]).value.JArr? && !FieldOf(items[i]).value.JObj?;
    }
  }

  // Approval leaves the executor two ways to raise: the pagination entry, and a pattern.
  lemma AcceptedRaisesExactly(lib: Library, trigger: string, ms: Members, response: Value)
    requires AcceptsObject(trigger, ms)
    ensures Apply(lib, ms, response) == Raised <==> !PaginationOk(ms) || !NoneTrips(lib, ms, response)
  {
    var specs := Specs(ms);
    RaisedExactly(lib, specs, |specs|, response);
    forall i | 0 <= i < |specs| ensures !BadName(lib, specs[i]) {
      NamesAreGood(lib, trigger, ms, specs[i]);
    }
    if Clear(lib, specs, |specs|, response) {
      forall spec | spec in specs ensures !Trips(lib, spec, response) {
        var i :| 0 <= i < |specs| && specs[i] == spec;
      }
    }
  }

  // Where a required field of an accepted mapping has an entry.
  lemma AcceptedHasEntry(trigger: string, ms: Members, name: string)
    requires AcceptsObject(trigger, ms) && name in Required(trigger)
    ensures LastFor(Specs(ms), |Specs(ms)|, Codes(name)).Some? <==> FieldList(ms).Some? || IsSpec(ms, Codes(name))
  {
    RequiredAreNames(trigger, name);
    assert Configured(ms, Codes(name));
    if FieldList(ms).Some? {
      var items := FieldList(ms).value;
      var i :| 0 <= i < |items| && FieldOf(items[i]) == Some(JStr(Codes(name)));
      ListedHasLast(items, |items|, i, Codes(name));
    } else {
      EntriesExact(ms, Codes(name));
      var i :| 0 <= i < |ms| && ms[i].key == Codes(name);
      AmongAll(ms, |ms|, i);
    }
  }

  // What the result has under a required name when nothing raises.
  lemma AcceptedAt(lib: Library, trigger: string, ms: Members, response: Value, name: string)
    requires AcceptsObject(trigger, ms) && name in Required(trigger)
    requires PaginationOk(ms) && NoneTrips(lib, ms, response) && Specs(ms) != []
    ensures At(Apply(lib, ms, response), Codes(name))
            == var last := LastFor(Specs(ms), |Specs(ms)|, Codes(name));
               if last.Some? then Some(Extracted(lib, last.value, response)) else None
  {
    RequiredAreNames(trigger, name);
    AcceptedRaisesExactly(lib, trigger, ms, response);
    CollectedExactly(lib, Specs(ms), |Specs(ms)|, response, Codes(name));
  }

  // Which accepted mappings name all required fields in the result for a response: the pagination entry, if any,
  // is an object, no entry trips over its pattern, and the mapping lists its fields, or gives each required one a
  // path or an object, or has no entry at all and hands on a response that has them.
  lemma AcceptedNames(lib: Library, trigger: string, ms: Members, response: Value)
    requires Required(trigger) != {} && AcceptsObject(trigger, ms)
    ensures Names(trigger, Apply(lib, ms, response)) <==>
              && PaginationOk(ms) && NoneTrips(lib, ms, response)
              && if Specs(ms) == [] then Names(trigger, PassedOn(response))
                 else SpeaksForItself(trigger, ms)
  {
    AcceptedRaisesExactly(lib, trigger, ms, response);
    var some :| some in Required(trigger);
    forall name | name in Required(trigger)
      ensures LastFor(Specs(ms), |Specs(ms)|, Codes(name)).Some? <==> FieldList(ms).Some? || IsSpec(ms, Codes(name))
    {
      AcceptedHasEntry(trigger, ms, name);
    }
    if Apply(lib, ms, response).Fields? {
      forall name | name in Required(trigger)
        ensures At(Apply(lib, ms, response), Codes(name)).Some?
           <==> LastFor(Specs(ms), |Specs(ms)|, Codes(name)).Some?
      {
        AcceptedAt(lib, trigger, ms, response, name);
      }
    }
  }

  // The last entry of this name finds something in the response.
  predicate Finds(lib: Library, ms: Members, name: PyStr, response: Value) {
    var last := LastFor(Specs(ms), |Specs(ms)|, name);
    last.Some? && Found(lib, last.value, response) != NULL
  }

  // And which give each of them a value: then the last entry of every required name finds something.
  lemma AcceptedDelivers(lib: Library, trigger: string, ms: Members, response: Value)
    requires Required(trigger) != {} && AcceptsObject(trigger, ms)
    ensures Delivers(trigger, Apply(lib, ms, response)) <==>
              && PaginationOk(ms) && NoneTrips(lib, ms, response)
              && if Specs(ms) == [] then Delivers(trigger, PassedOn(response))
                 else forall name :: name in Required(trigger) ==> Finds(lib, ms, Codes(name), response)
  {
    AcceptedRaisesExactly(lib, trigger, ms, response);
    var some :| some in Required(trigger);
    if Apply(lib, ms, response).Fields? {
      forall name | name in Required(trigger)
        ensures var v := At(Apply(lib, ms, response), Codes(name));
                v.Some? && v.value != NULL <==> Finds(lib, ms, Codes(name), response)
      {
        AcceptedAt(lib, trigger, ms, response, name);
      }
    }
  }

  // The names are there whatever the response is exactly when the mapping does not rely on the response being
  // handed on, and no entry with a pattern that re.search does not take finds a text in any response.
  lemma AcceptedNamesAlways(lib: Library, trigger: string, ms: Members)
    requires Required(trigger) != {} && AcceptsObject(trigger, ms)
    ensures (forall response :: Names(trigger, Apply(lib, ms, response))) <==>
              PaginationOk(ms) && SpeaksForItself(trigger, ms) && NeverTrips(lib, ms)
  {
    var some :| some in Required(trigger);
    AcceptedHasEntry(trigger, ms, some);
    if forall response :: Names(trigger, Apply(lib, ms, response)) {
      AcceptedNames(lib, trigger, ms, NULL);
      assert Names(trigger, Apply(lib, ms, NULL)) && !Names(trigger, PassedOn(NULL));
      forall spec, response | spec in Specs(ms) && lib.Truth(NameOf(spec)) && BadPattern(lib, spec)
        ensures !Found(lib, spec, response).JStr?
      {
        assert Names(trigger, Apply(lib, ms, response));
        AcceptedNames(lib, trigger, ms, response);
        assert !Trips(lib, spec, response);
      }
    }
    if PaginationOk(ms) && SpeaksForItself(trigger, ms) && NeverTrips(lib, ms) {
      forall response ensures Names(trigger, Apply(lib, ms, response)) {
        AcceptedNames(lib, trigger, ms, response);
      }
    }
  }

  // ---------------------------------------------------------------- what value a field gets

  // The last entry of a name decides: without a path its field is None. Otherwise it is what the path finds, and
  // when that is a text and the entry has a pattern, the match of the pattern, or the text where nothing matches.
  lemma FieldIsTheMatch(lib: Library, ms: Members, response: Value, name: PyStr)
    requires Apply(lib, ms, response).Fields? && name != []
    ensures var last := LastFor(Specs(ms), |Specs(ms)|, name);
            (last.None? <==> At(Apply(lib, ms, response), name).None?) &&
            (last.Some? ==>
               var v, path, regex := At(Apply(lib, ms, response), name).value,
                 Get(last.value, "path"), Get(last.value, "extract_regex");
               && (!lib.Truth(path) ==> v == NULL)
               && (lib.Truth(path) && !lib.search(path, response).JStr? ==> v == lib.search(path, response))
               && (lib.Truth(path) && !lib.Truth(regex) ==> v == lib.search(path, response))
               && (lib.Truth(path) && lib.Truth(regex) && lib.search(path, response).JStr? ==>
                     && regex.JStr? && lib.compiles(regex.s)
                     && var text := lib.search(path, response).s;
                        && (lib.find(regex.s, text).Some? ==> v == JStr(lib.find(regex.s, text).value))
                        && (lib.find(regex.s, text).None? ==> v == JStr(text))))
  {
    var specs := Specs(ms);
    RaisedExactly(lib, specs, |specs|, response);
    CollectedExactly(lib, specs, |specs|, response, name);
    if LastFor(specs, |specs|, name).Some? { LastIsThere(lib, specs, |specs|, name, response); }
  }

  lemma {:induction false} LastIsThere(lib: Library, specs: seq<Value>, n: nat, name: PyStr, response: Value)
    requires n <= |specs| && name != [] && LastFor(specs, n, name).Some? && Clear(lib, specs, n, response)
    ensures var spec := LastFor(specs, n, name).value;
            NameOf(spec) == JStr(name) && lib.Truth(NameOf(spec)) && !Trips(lib, spec, response)
  {
    if NameOf(specs[n - 1]) != JStr(name) { LastIsThere(lib, specs, n - 1, name, response); }
  }

  // From end to end, for one field in either style: the match where the path finds a text that the pattern matches.
  // With "T-[0-9]+" the text "Created T-17" gives "T-17".
  lemma OneFieldGetsTheMatch(lib: Library, name: PyStr, path: Value, regex: PyStr, response: Value)
    requires name != [] && name != Codes("pagination") && name != Codes("fields")
    requires lib.Truth(path) && lib.search(path, response).JStr?
    requires regex != [] && lib.compiles(regex) && lib.find(regex, lib.search(path, response).s).Some?
    ensures var part := JStr(lib.find(regex, lib.search(path, response).s).value);
            var listed := [Member(Codes("fields"), JArr([Entry(name, path, JStr(regex))]))];
            var spec := JObj([Member(Codes("path"), path), Member(Codes("extract_regex"), JStr(regex))]);
            var flat := [Member(name, spec)];
            && Apply(lib, listed, response) == Fields(map[name := part])
            && Apply(lib, flat, response) == Fields(map[name := part])
  {
    ListedSpecs([Entry(name, path, JStr(regex))]);
    FlatSpecs(name, path, JStr(regex));
    EntryParts(name, path, JStr(regex));
    OneEntry(lib, Entry(name, path, JStr(regex)), response);
  }

  lemma ListedSpecs(items: seq<Value>)
    ensures var ms := [Member(Codes("fields"), JArr(items))]; Specs(ms) == items && PaginationOk(ms)
  {
    var ms: Members := [Member(Codes("fields"), JArr(items))];
    CodesApart("fields", "pagination");
    assert ms[..0] == [] && Lookup(ms, Codes("pagination")).None?;
  }

  lemma FlatSpecs(name: PyStr, path: Value, regex: Value)
    requires name != Codes("pagination") && name != Codes("fields")
    ensures var spec := JObj([Member(Codes("path"), path), Member(Codes("extract_regex"), regex)]);
            var ms := [Member(name, spec)];
            Specs(ms) == [Entry(name, path, regex)] && PaginationOk(ms)
  {
    var parts: Members := [Member(Codes("path"), path), Member(Codes("extract_regex"), regex)];
    var ms: Members := [Member(name, JObj(parts))];
    CodesApart("path", "extract_regex");
    TwoMembers(parts[0], parts[1]);
    assert ms[..0] == [] && Lookup(ms, name) == Some(JObj(parts));
    assert Lookup(ms, Codes("pagination")).None? && Lookup(ms, Codes("fields")).None?;
    assert EntrySpecs(ms, 0) == [] && EntrySpecs(ms, 1) == [Entry(name, path, regex)];
  }

  // Of members with the same name the last counts, as in a Python dict.
  lemma LastMemberCounts(ms: Members, m: Member<PyStr>, name: PyStr)
    ensures Lookup(ms + [m], name) == if m.key == name then Some(m.value) else Lookup(ms, name)
  {
    assert (ms + [m])[..|ms|] == ms;
  }

  // A mapping that is approved for ticket creation, whose result has the one field "x" for every response.
  lemma AcceptedButNotDelivered(lib: Library, response: Value)
    ensures var ms := [Member(Codes("ticket_id"), JBare("5")), Member(Codes("x"), JStr(Codes("y")))];
            && AcceptsObject("ticket_create", ms)
            && Apply(lib, ms, response) == Fields(map[Codes("x") := lib.search(JStr(Codes("y")), response)])
            && !Names("ticket_create", Apply(lib, ms, response))
  {
    var id, x, y := Codes("ticket_id"), Codes("x"), JStr(Codes("y"));
    var ms := [Member(id, JBare("5")), Member(x, y)];
    CodesApart("ticket_id", "pagination");
    CodesApart("ticket_id", "fields");
    CodesApart("ticket_id", "x");
    CodesApart("x", "pagination");
    CodesApart("x", "fields");
    TwoMembers(ms[0], ms[1]);
    assert EntrySpecs(ms, 1) == [] && EntrySpecs(ms, 2) == [Entry(x, y, NULL)];
    PlainEntry(lib, x, y, response);
    assert Required("ticket_create") == {"ticket_id"};
    assert Configured(ms, id);
  }

  lemma TwoMembers(a: Member<PyStr>, b: Member<PyStr>)
    requires a.key != b.key
    ensures forall name :: Lookup([a, b], name) ==
                             if name == a.key then Some(a.value) else if name == b.key then Some(b.value) else None
  {
    assert [a, b][..1] == [a] && [a][..0] == [];
  }

  lemma PlainEntry(lib: Library, name: PyStr, path: Value, response: Value)
    requires name != []
    ensures var value := if lib.Truth(path) then lib.search(path, response) else NULL;
            Collect(lib, [Entry(name, path, NULL)], 1, response) == Some(map[name := value])
  {
    EntryParts(name, path, NULL);
    OneEntry(lib, Entry(name, path, NULL), response);
  }

  lemma OneEntry(lib: Library, spec: Value, response: Value)
    ensures Collect(lib, [spec], 1, response) == Step(lib, map[], spec, response)
  {
    assert Collect(lib, [spec], 0, response) == Some(map[]);
  }

  // A pattern that does not compile, or is no string, on a path that finds a text: the mapping is approved for
  // ticket creation, and reading the ticket id raises. {"fields": [{"field": "ticket_id", "path": "id",
  // "extract_regex": "("}]} with the response {"id": "T-1"} is one; so is the flat form.
  lemma AcceptedThenRaises(lib: Library, path: Value, regex: Value, response: Value)
    requires lib.Truth(path) && lib.search(path, response).JStr?
    requires lib.Truth(regex) && !(regex.JStr? && lib.compiles(regex.s))
    ensures var listed := [Member(Codes("fields"), JArr([Entry(Codes("ticket_id"), path, regex)]))];
            AcceptsObject("ticket_create", listed) && Apply(lib, listed, response) == Raised
    ensures var spec := JObj([Member(Codes("path"), path), Member(Codes("extract_regex"), regex)]);
            var flat := [Member(Codes("ticket_id"), spec)];
            AcceptsObject("ticket_create", flat) && Apply(lib, flat, response) == Raised
  {
    ListedRaises(lib, path, regex, response);
    FlatRaises(lib, path, regex, response);
  }

  lemma EntryTrips(lib: Library, path: Value, regex: Value, response: Value)
    requires lib.Truth(path) && lib.search(path, response).JStr?
    requires lib.Truth(regex) && !(regex.JStr? && lib.compiles(regex.s))
    ensures Collect(lib, [Entry(Codes("ticket_id"), path, regex)], 1, response).None?
  {
    var spec := Entry(Codes("ticket_id"), path, regex);
    EntryParts(Codes("ticket_id"), path, regex);
    OneEntry(lib, spec, response);
    assert |NameOf(spec).s| == |"ticket_id"|;
  }

  lemma ListedRaises(lib: Library, path: Value, regex: Value, response: Value)
    requires lib.Truth(path) && lib.search(path, response).JStr?
    requires lib.Truth(regex) && !(regex.JStr? && lib.compiles(regex.s))
    ensures var ms := [Member(Codes("fields"), JArr([Entry(Codes("ticket_id"), path, regex)]))];
            AcceptsObject("ticket_create", ms) && Apply(lib, ms, response) == Raised
  {
    var items := [Entry(Codes("ticket_id"), path, regex)];
    var ms: Members := [Member(Codes("fields"), JArr(items))];
    ListedSpecs(items);
    EntryParts(Codes("ticket_id"), path, regex);
    EntryTrips(lib, path, regex, response);
    assert FieldList(ms) == Some(items);
    assert FieldOf(items[0]) == Some(JStr(Codes("ticket_id"))) && Lists(items, Codes("ticket_id"));
  }

  lemma FlatRaises(lib: Library, path: Value, regex: Value, response: Value)
    requires lib.Truth(path) && lib.search(path, response).JStr?
    requires lib.Truth(regex) && !(regex.JStr? && lib.compiles(regex.s))
    ensures var spec := JObj([Member(Codes("path"), path), Member(Codes("extract_regex"), regex)]);
            var ms := [Member(Codes("ticket_id"), spec)];
            AcceptsObject("ticket_create", ms) && Apply(lib, ms, response) == Raised
  {
    var id, parts: Members := Codes("ticket_id"), [Member(Codes("path"), path), Member(Codes("extract_regex"), regex)];
    var ms: Members := [Member(id, JObj(parts))];
    CodesApart("ticket_id", "pagination");
    CodesApart("ticket_id", "fields");
    FlatSpecs(id, path, regex);
    EntryTrips(lib, path, regex, response);
    assert Lookup(ms, id) == Some(JObj(parts)) && FieldList(ms).None?;
    assert Required("ticket_create") == {"ticket_id"} && Configured(ms, id);
  }
}
