/**
 The cache of LLM clients: it answers as if every client were built afresh, and forgets the least recently used
 (app/llm_config.py:341-406).
 */
module ClientCache {
  import opened Common

  // ---------------------------------------------------------------- what is built

  datatype Config = Config(provider: PyStr, apiKey: PyStr, baseUrl: Option<PyStr>, apiVersion: Option<PyStr>,
                           modelName: PyStr, name: PyStr)

  datatype Client =
    | Anthropic(apiKey: PyStr, rootUrl: PyStr)
    | Azure(apiKey: PyStr, apiVersion: PyStr, endpoint: Option<PyStr>)
    | OpenAI(apiKey: PyStr, baseUrl: Option<PyStr>)

  datatype Key = Key(configId: int, provider: PyStr, apiKey: PyStr, baseUrl: Option<PyStr>, apiVersion: Option<PyStr>)

  function KeyOf(configId: int, c: Config): Key {
    Key(configId, c.provider, c.apiKey, c.baseUrl, c.apiVersion)
  }

  function DefaultUrl(provider: PyStr): Option<PyStr> {
    if provider == Codes("groq") then Some(Codes("https://api.groq.com/openai/v1"))
    else if provider == Codes("openai") then Some(Codes("https://api.openai.com/v1"))
    else if provider == Codes("claude") || provider == Codes("anthropic")
    then Some(Codes("https://api.anthropic.com/v1"))
    else if provider == Codes("grok") then Some(Codes("https://api.x.ai/v1"))
    else if provider == Codes("gemini") then Some(Codes("https://generativelanguage.googleapis.com/v1beta/openai/"))
    else None
  }

  // _build_client; lower is str.lower. Only these four fields of a config go into a client.
  function Build(lower: PyStr -> PyStr, c: Config): Client {
    BuildFrom(lower(c.provider), c.apiKey, c.baseUrl, c.apiVersion)
  }

  function BuildFrom(provider: PyStr, apiKey: PyStr, baseUrl: Option<PyStr>, apiVersion: Option<PyStr>): Client {
    var url := if Or(baseUrl, None).Some? then baseUrl else Or(DefaultUrl(provider), baseUrl);
    if provider == Codes("claude") || provider == Codes("anthropic") then
      var root := Or(url, Some(Codes("https://api.anthropic.com/v1"))).value;
      Anthropic(apiKey, RStrip(root, (x: CodePoint) => x == '/' as int))
    else if provider == Codes("azure") then
      Azure(apiKey, Or(apiVersion, Some(Codes("2024-02-15-preview"))).value, url)
    else
      OpenAI(apiKey, Or(url, None))
  }

  // A client speaks to the provider of its config, with the key of the config, at the URL of the config if one is
  // given and else at the provider's own.
  lemma BuiltFromTheConfig(lower: PyStr -> PyStr, c: Config)
    ensures var client, provider := Build(lower, c), lower(c.provider);
            && client.apiKey == c.apiKey
            && (client.Anthropic? <==> provider == Codes("claude") || provider == Codes("anthropic"))
            && (client.Azure? <==> !client.Anthropic? && provider == Codes("azure"))
            && (Truthy(c.baseUrl) ==>
                  && (client.Anthropic? ==>
                        client.rootUrl == RStrip(c.baseUrl.value, (x: CodePoint) => x == '/' as int))
                  && (client.Azure? ==> client.endpoint == c.baseUrl)
                  && (client.OpenAI? ==> client.baseUrl == c.baseUrl))
            && (client.Azure? && Truthy(c.apiVersion) ==> client.apiVersion == c.apiVersion.value)
  {}

  // The provider's own address.
  lemma OwnUrl(lower: PyStr -> PyStr, c: Config)
    requires !Truthy(c.baseUrl) && lower(c.provider) == Codes("openai")
    ensures Build(lower, c) == OpenAI(c.apiKey, Some(Codes("https://api.openai.com/v1")))
  {
    Apart("openai", "groq");
    Apart("openai", "claude");
    Apart("openai", "anthropic");
    Apart("openai", "azure");
  }

  lemma GroqUrl(lower: PyStr -> PyStr, c: Config)
    requires !Truthy(c.baseUrl) && lower(c.provider) == Codes("groq")
    ensures Build(lower, c) == OpenAI(c.apiKey, Some(Codes("https://api.groq.com/openai/v1")))
  {
    Apart("groq", "claude");
    Apart("groq", "anthropic");
    Apart("groq", "azure");
  }

  lemma Apart(s: string, t: string)
    requires forall i :: 0 <= i < |s| ==> s[i] as int < 0x80
    requires forall i :: 0 <= i < |t| ==> t[i] as int < 0x80
    requires s != t
    ensures Codes(s) != Codes(t)
  {
    if |s| == |t| {
      var i :| 0 <= i < |s| && s[i] != t[i];
      assert Codes(s)[i] != Codes(t)[i];
    }
  }

  // The config a key stands for, up to the fields that do not go into a client.
  function ConfigOf(k: Key): Config {
    Config(k.provider, k.apiKey, k.baseUrl, k.apiVersion, [], [])
  }

  // ---------------------------------------------------------------- which keys should be there

  const MAX_SIZE := 50
  const TTL := 300

  function Without(s: seq<Key>, x: Key): (r: seq<Key>)
    ensures |s| - (if x in s then |s| else 0) <= |r| <= |s|
    ensures forall y :: y in r <==> y in s && y != x
  {
    if s == [] then [] else (if s[0] == x then [] else [s[0]]) + Without(s[1..], x)
  }

  ghost predicate NoDup(s: seq<Key>) {
    forall i, j :: 0 <= i < j < |s| ==> s[i] != s[j]
  }

  function Last(s: seq<Key>, n: nat): seq<Key> {
    if |s| <= n then s else s[|s| - n..]
  }

  // The distinct keys of a history of uses, the one used longest ago first.
  function Recent(uses: seq<Key>): (r: seq<Key>)
    ensures forall x :: x in r <==> x in uses
  {
    if uses == [] then [] else
    var n := |uses| - 1;
    Without(Recent(uses[..n]), uses[n]) + [uses[n]]
  }

  // The place of the last use of x.
  function LastUse(uses: seq<Key>, x: Key): (i: nat)
    requires x in uses
    ensures i < |uses| && uses[i] == x && forall j :: i < j < |uses| ==> uses[j] != x
  {
    if uses[|uses| - 1] == x then |uses| - 1 else LastUse(uses[..|uses| - 1], x)
  }

  ghost predicate ByLastUse(s: seq<Key>, uses: seq<Key>)
    requires forall x :: x in s ==> x in uses
  {
    forall i, j :: 0 <= i < j < |s| ==> LastUse(uses, s[i]) < LastUse(uses, s[j])
  }

  // Leaving an element out of a sequence keeps the order of the others.
  lemma {:induction false} WithoutKeepsOrder(s: seq<Key>, x: Key) returns (at: seq<nat>)
    ensures |at| == |Without(s, x)|
    ensures forall i :: 0 <= i < |at| ==> at[i] < |s| && Without(s, x)[i] == s[at[i]]
    ensures forall i, j :: 0 <= i < j < |at| ==> at[i] < at[j]
  {
    if s == [] {
      at := [];
    } else {
      var rest := WithoutKeepsOrder(s[1..], x);
      var shifted := seq(|rest|, i requires 0 <= i < |rest| => rest[i] + 1);
      at := (if s[0] == x then [] else [0]) + shifted;
    }
  }

  lemma {:induction false} RecentIsByLastUse(uses: seq<Key>)
    ensures ByLastUse(Recent(uses), uses) && NoDup(Recent(uses))
  {
    if uses != [] {
      var n := |uses| - 1;
      var before, r := Recent(uses[..n]), Recent(uses);
      RecentIsByLastUse(uses[..n]);
      var at := WithoutKeepsOrder(before, uses[n]);
      forall i | 0 <= i < |r| - 1 ensures LastUse(uses, r[i]) == LastUse(uses[..n], before[at[i]]) < n {
        assert r[i] in Without(before, uses[n]);
      }
    }
  }

  lemma {:induction false} WithoutSize(s: seq<Key>, x: Key)
    requires NoDup(s)
    ensures x in s ==> |Without(s, x)| == |s| - 1
    ensures x !in s ==> Without(s, x) == s
  {
    if s != [] {
      assert forall i :: 0 <= i < |s[1..]| ==> s[1..][i] == s[i + 1];
      WithoutSize(s[1..], x);
      if s[0] == x { assert x !in s[1..]; } else { assert s == [s[0]] + s[1..]; }
    }
  }

  lemma {:induction false} WithoutSplit(a: seq<Key>, b: seq<Key>, x: Key)
    ensures Without(a + b, x) == Without(a, x) + Without(b, x)
  {
    if a == [] {
      assert a + b == b;
    } else {
      assert (a + b)[0] == a[0] && (a + b)[1..] == a[1..] + b;
      WithoutSplit(a[1..], b, x);
      ConcatAssoc(if a[0] == x then [] else [a[0]], Without(a[1..], x), Without(b, x));
    }
  }

  // One use, on the keys that are there: a known key moves to the end, an unknown one pushes the first out of
  // a full list.
  function Touch(order: seq<Key>, x: Key, n: nat): seq<Key>
    requires n > 0
  {
    if x in order then Without(order, x) + [x]
    else (if |order| >= n then order[|order| - n + 1..] else order) + [x]
  }

  lemma WithoutNoDup(s: seq<Key>, x: Key)
    requires NoDup(s)
    ensures NoDup(Without(s, x))
  {
    var at := WithoutKeepsOrder(s, x);
  }

  lemma LastOfSum(a: seq<Key>, b: seq<Key>)
    ensures Last(a + b, |b|) == b
  {}

  lemma TouchLong(a: seq<Key>, b: seq<Key>, x: Key)
    requires NoDup(a + b) && b != []
    ensures Touch(b, x, |b|) == Last(Without(a + b, x) + [x], |b|)
  {
    var r := a + b;
    assert forall i :: 0 <= i < |a| ==> a[i] == r[i];
    assert forall i :: 0 <= i < |b| ==> b[i] == r[|a| + i];
    WithoutSplit(a, b, x);
    if x in b {
      assert x !in a;
      WithoutSize(a, x);
      WithoutSize(b, x);
      ConcatAssoc(a, Without(b, x), [x]);
      LastOfSum(a, Without(b, x) + [x]);
    } else {
      WithoutSize(b, x);
      LongTail(Without(a, x), b, x);
    }
  }

  lemma TouchShort(r: seq<Key>, x: Key, n: nat)
    requires NoDup(r) && |r| <= n && n > 0
    ensures Touch(r, x, n) == Last(Without(r, x) + [x], n)
  {
    WithoutSize(r, x);
    if x !in r && |r| == n {
      LongTail([], r, x);
      assert [] + r + [x] == r + [x];
    }
  }

  // So the keys that are there are always the n used last, whatever the history.
  lemma TouchKeepsTheLast(uses: seq<Key>, x: Key, n: nat)
    requires n > 0
    ensures Touch(Last(Recent(uses), n), x, n) == Last(Recent(uses + [x]), n)
  {
    var r := Recent(uses);
    assert (uses + [x])[..|uses|] == uses;
    RecentIsByLastUse(uses);
    if |r| > n {
      assert r == r[..|r| - n] + r[|r| - n..];
      TouchLong(r[..|r| - n], r[|r| - n..], x);
    } else {
      TouchShort(r, x, n);
    }
  }

  lemma LongTail(a: seq<Key>, b: seq<Key>, x: Key)
    requires b != []
    ensures Last(a + b + [x], |b|) == b[1..] + [x]
  {
    assert b == [b[0]] + b[1..];
    assert a + b + [x] == (a + [b[0]]) + (b[1..] + [x]);
    LastOfSum(a + [b[0]], b[1..] + [x]);
  }

  lemma LastIsByLastUse(uses: seq<Key>, n: nat)
    ensures forall k :: k in Last(Recent(uses), n) ==> k in uses
    ensures ByLastUse(Last(Recent(uses), n), uses)
  {
    RecentIsByLastUse(uses);
    SuffixIsByLastUse(Recent(uses), if |Recent(uses)| <= n then 0 else |Recent(uses)| - n, uses);
  }

  lemma SuffixIsByLastUse(r: seq<Key>, from: nat, uses: seq<Key>)
    requires from <= |r| && (forall k :: k in r ==> k in uses) && ByLastUse(r, uses)
    ensures (forall k :: k in r[from..] ==> k in uses) && ByLastUse(r[from..], uses)
  {
    var was := r[from..];
    forall i, j | 0 <= i < j < |was| ensures LastUse(uses, was[i]) < LastUse(uses, was[j]) {
      assert was[i] == r[from + i] && was[j] == r[from + j];
    }
  }

  lemma TouchDrops(order: seq<Key>, x: Key, gone: Key, n: nat)
    requires |order| <= n && n > 0 && gone in order && gone !in Touch(order, x, n)
    ensures x !in order && |order| == n && gone == order[0]
    ensures forall i :: 0 < i < |order| ==> order[i] in Touch(order, x, n)
  {
    assert x !in order;
    assert order == [order[0]] + order[1..];
    forall i | 0 < i < |order| ensures order[i] in order[1..] {
      assert order[i] == order[1..][i - 1];
    }
  }

  // What a use drops, if it drops anything, is the one key that was used longest ago.
  lemma DroppedIsLeastRecent(uses: seq<Key>, x: Key, gone: Key, n: nat)
    requires n > 0 && gone in Last(Recent(uses), n) && gone !in Last(Recent(uses + [x]), n)
    ensures x !in Last(Recent(uses), n) && |Last(Recent(uses), n)| == n
    ensures gone in uses && forall k :: k in Last(Recent(uses), n) && k != gone ==>
              k in uses && LastUse(uses, gone) < LastUse(uses, k) && k in Last(Recent(uses + [x]), n)
  {
    var was := Last(Recent(uses), n);
    TouchKeepsTheLast(uses, x, n);
    LastIsByLastUse(uses, n);
    TouchDrops(was, x, gone, n);
    forall k | k in was && k != gone
      ensures k in uses && LastUse(uses, gone) < LastUse(uses, k) && k in Last(Recent(uses + [x]), n)
    {
      var i :| 0 <= i < |was| && was[i] == k;
    }
  }

  // ---------------------------------------------------------------- when a client was built

  datatype Call = Call(key: Key, now: int)

  function Keys(calls: seq<Call>): (keys: seq<Key>)
    ensures |keys| == |calls| && forall i :: 0 <= i < |calls| ==> keys[i] == calls[i].key
  {
    seq(|calls|, i requires 0 <= i < |calls| => calls[i].key)
  }

  // The keys that are there after these calls.
  function Present(calls: seq<Call>): seq<Key> {
    Last(Recent(Keys(calls)), MAX_SIZE)
  }

  // The time at which the client that is there for this key was built: a use rebuilds it when it was pushed
  // out before or is too old, and otherwise leaves it.
  function BuiltAt(calls: seq<Call>, key: Key): int {
    if calls == [] then 0 else
    var n := |calls| - 1;
    var before := BuiltAt(calls[..n], key);
    if calls[n].key != key || (key in Present(calls[..n]) && calls[n].now - before < TTL) then before else calls[n].now
  }

  ghost predicate Ordered(calls: seq<Call>) {
    forall i, j :: 0 <= i < j < |calls| ==> calls[i].now <= calls[j].now
  }

  lemma PresentStep(calls: seq<Call>, c: Call)
    ensures Present(calls + [c]) == Touch(Present(calls), c.key, MAX_SIZE)
  {
    assert Keys(calls + [c]) == Keys(calls) + [c.key];
    TouchKeepsTheLast(Keys(calls), c.key, MAX_SIZE);
  }

  lemma BuiltStep(calls: seq<Call>, c: Call)
    ensures forall k :: k != c.key ==> BuiltAt(calls + [c], k) == BuiltAt(calls, k)
    ensures BuiltAt(calls + [c], c.key) ==
              if c.key in Present(calls) && c.now - BuiltAt(calls, c.key) < TTL then BuiltAt(calls, c.key) else c.now
  {
    assert (calls + [c])[..|calls|] == calls;
  }

  // From place at on, every call for this key finds a client built at that time young enough.
  ghost predicate FreshFrom(calls: seq<Call>, key: Key, at: nat, built: int) {
    forall i :: at <= i < |calls| && calls[i].key == key ==> 0 <= calls[i].now - built < TTL
  }

  lemma FreshStep(calls: seq<Call>, c: Call, key: Key, at: nat, built: int)
    requires FreshFrom(calls, key, at, built) && (c.key == key ==> 0 <= c.now - built < TTL)
    ensures FreshFrom(calls + [c], key, at, built)
  {}

  // The client that is there was built at some call for its key, no call since found it too old, and the
  // clock has not gone back behind it.
  lemma {:induction false} BuiltByACall(calls: seq<Call>, key: Key) returns (at: nat)
    requires Ordered(calls) && key in Present(calls)
    ensures at < |calls| && calls[at] == Call(key, BuiltAt(calls, key))
    ensures FreshFrom(calls, key, at, BuiltAt(calls, key))
  {
    var n := |calls| - 1;
    PresentIsUsed(calls);
    var before, c := calls[..n], calls[n];
    assert calls == before + [c];
    PresentStep(before, c);
    BuiltStep(before, c);
    if c.key != key || (key in Present(before) && c.now - BuiltAt(before, key) < TTL) {
      at := BuiltByACall(before, key);
      assert before[at] == calls[at] && before[at].now <= c.now;
      FreshStep(before, c, key, at, BuiltAt(before, key));
    } else {
      at := n;
    }
  }

  lemma PresentIsUsed(calls: seq<Call>)
    ensures Present(calls) != [] ==> calls != []
  {
    LastIsByLastUse(Keys(calls), MAX_SIZE);
  }

  lemma WithoutFirst(order: seq<Key>)
    requires order != [] && NoDup(order)
    ensures NoDup(order[1..]) && (set k | k in order[1..]) == (set k | k in order) - {order[0]}
  {
    assert order == [order[0]] + order[1..];
    assert order[0] !in order[1..];
  }

  // What one more call makes of the stamps.
  lemma {:induction false} HistoryStep(calls: seq<Call>, c: Call, stamps: map<Key, int>, after: map<Key, int>)
    requires Ordered(calls) && forall i :: 0 <= i < |calls| ==> calls[i].now <= c.now
    requires stamps.Keys == (set k | k in Present(calls)) && forall k :: k in stamps ==> stamps[k] == BuiltAt(calls, k)
    requires forall k :: k in after && k != c.key ==> k in stamps && after[k] == stamps[k]
    requires c.key in after
    requires after[c.key] == if c.key in stamps && c.now - stamps[c.key] < TTL then stamps[c.key] else c.now
    ensures Ordered(calls + [c]) && Present(calls + [c]) == Touch(Present(calls), c.key, MAX_SIZE)
    ensures forall k :: k in after ==> after[k] == BuiltAt(calls + [c], k)
    ensures 0 <= c.now - after[c.key] < TTL
  {
    PresentStep(calls, c);
    BuiltStep(calls, c);
    if c.key in stamps { var at := BuiltByACall(calls, c.key); }
  }

  // A client that is there and under 300 seconds old is handed out again; any other call builds a new one. What
  // is there are the fifty keys used last.
  lemma ReusedExactly(calls: seq<Call>, c: Call)
    ensures BuiltAt(calls + [c], c.key) ==
              if c.key in Present(calls) && c.now - BuiltAt(calls, c.key) < 300 then BuiltAt(calls, c.key) else c.now
    ensures Present(calls) == Last(Recent(Keys(calls)), 50)
  {
    BuiltStep(calls, c);
  }

  class Cache {
    const lower: PyStr -> PyStr
    var order: seq<Key>
    var clients: map<Key, Client>
    var stamps: map<Key, int>
    ghost var calls: seq<Call>

    // Both maps hold exactly the keys of the order, each with the client that its key stands for.
    ghost predicate Consistent()
      reads this
    {
      && NoDup(order) && |order| <= MAX_SIZE
      && clients.Keys == stamps.Keys == (set k | k in order)
      && (forall k :: k in clients ==> clients[k] == Build(lower, ConfigOf(k)))
    }

    // The order is the fifty keys used last, in the order of their last use, with the stamps of their clients.
    ghost predicate Valid()
      reads this
    {
      && Consistent()
      && Ordered(calls)
      && order == Present(calls)
      && (forall k :: k in stamps ==> stamps[k] == BuiltAt(calls, k))
    }

    constructor (lower: PyStr -> PyStr)
      ensures Valid() && calls == [] && this.lower == lower
    {
      this.lower, order, clients, stamps, calls := lower, [], map[], map[], [];
    }

    method Remove(key: Key)
      requires Consistent() && key in order
      modifies this`order, this`clients, this`stamps
      ensures Consistent() && order == Without(old(order), key) && |order| < MAX_SIZE
      ensures forall k :: k in stamps ==> k in old(stamps) && stamps[k] == old(stamps)[k]
    {
      WithoutSize(order, key);
      WithoutNoDup(order, key);
      order, clients, stamps := Without(order, key), clients - {key}, stamps - {key};
    }

    method MoveToEnd(key: Key)
      requires Consistent() && key in order
      modifies this`order
      ensures Consistent() && order == Without(old(order), key) + [key]
    {
      WithoutSize(order, key);
      WithoutNoDup(order, key);
      order := Without(order, key) + [key];
    }

    method PopOldest()
      requires Consistent() && order != []
      modifies this`order, this`clients, this`stamps
      ensures Consistent() && order == old(order)[1..]
      ensures forall k :: k in stamps ==> k in old(stamps) && stamps[k] == old(stamps)[k]
    {
      var evicted := order[0];
      WithoutFirst(order);
      order, clients, stamps := order[1..], clients - {evicted}, stamps - {evicted};
    }

    method Insert(key: Key, client: Client, now: int)
      requires Consistent() && |order| < MAX_SIZE && key !in order && client == Build(lower, ConfigOf(key))
      modifies this`order, this`clients, this`stamps
      ensures Consistent() && order == old(order) + [key] && stamps == old(stamps)[key := now]
    {
      order, clients, stamps := order + [key], clients[key := client], stamps[key := now];
    }

    method MakeRoom()
      requires Consistent()
      modifies this`order, this`clients, this`stamps
      ensures Consistent() && |order| < MAX_SIZE
      ensures order == if |old(order)| >= MAX_SIZE then old(order)[|old(order)| - MAX_SIZE + 1..] else old(order)
      ensures forall k :: k in stamps ==> k in old(stamps) && stamps[k] == old(stamps)[k]
    {
      while |order| >= MAX_SIZE
        invariant Consistent()
        invariant order == old(order) || (|old(order)| == MAX_SIZE && order == old(order)[1..])
        invariant forall k :: k in stamps ==> k in old(stamps) && stamps[k] == old(stamps)[k]
        decreases |order|
      {
        PopOldest();
      }
    }

    // What follows when the key is not there, or its client is too old.
    method Rebuild(key: Key, client: Client, now: int)
      requires Consistent() && client == Build(lower, ConfigOf(key))
      modifies this`order, this`clients, this`stamps
      ensures Consistent() && order == Touch(old(order), key, MAX_SIZE)
      ensures key in stamps && stamps[key] == now
      ensures forall k :: k in stamps && k != key ==> k in old(stamps) && stamps[k] == old(stamps)[k]
    {
      if key in order {
        Remove(key);
        MakeRoom();
        assert order == Without(old(order), key);
      } else {
        MakeRoom();
      }
      Insert(key, client, now);
    }

    // get_dynamic_client; now is what the clock says, which never goes back.
    method GetDynamicClient(configId: int, config: Config, now: int) returns (client: Client)
      requires Valid() && forall i :: 0 <= i < |calls| ==> calls[i].now <= now
      modifies this
      ensures Valid() && calls == old(calls) + [Call(KeyOf(configId, config), now)]
      ensures client == Build(lower, config)
      ensures KeyOf(configId, config) in clients && clients[KeyOf(configId, config)] == client
      ensures 0 <= now - stamps[KeyOf(configId, config)] < TTL
    {
      var key := KeyOf(configId, config);
      if key in order && now - stamps[key] < TTL {
        MoveToEnd(key);
        client := clients[key];
      } else {
        client := Build(lower, config);
        Rebuild(key, client, now);
      }
      HistoryStep(calls, Call(key, now), old(stamps), stamps);
      calls := calls + [Call(key, now)];
    }
  }
}
