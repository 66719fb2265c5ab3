/** What a value looks like after it has been through the cache: secrets stripped, then written and read as JSON.
  *
  * `Json` is a JSON text read back; writing and reading the text itself is taken to lose nothing.
  */
module CacheValues {
  import opened JsValues
  import opened Prelude
  import opened CacheService
  import opened Text

  datatype Json =
    | JNull | JBool(truth: bool) | JNum(number: real) | JStr(text: string) | JArr(items: seq<Json>)
    | JObj(members: seq<Member>)

  datatype Member = Member(key: string, value: Json)

  // ---- JSON.stringify and JSON.parse ----

  /** None for what JSON leaves out of an object. Dates and Decimals have a `toJSON`; other instances show their
    * fields. */
  function ToJson(v: Js): Option<Json>
    decreases v, 1
  {
    match v
    case Null => Some(JNull)
    case Undefined => None
    case Other(_) => None
    case Str(text) => Some(JStr(text))
    case Num(number) => Some(JNum(number))
    case Bool(truth) => Some(JBool(truth))
    case Decimal(digits) => Some(JStr(digits))
    case Date(iso) => Some(JStr(iso))
    case Arr(items) => Some(JArr(ItemsToJson(items)))
    case Obj(_, fields) => Some(JObj(FieldsToJson(fields)))
  }

  function ItemsToJson(items: seq<Js>): (r: seq<Json>)
    ensures |r| == |items|
    decreases items, 0
  {
    if items == [] then []
    else
      var first := ToJson(items[0]);
      [if first.Some? then first.value else JNull] + ItemsToJson(items[1..])
  }

  function FieldsToJson(fields: seq<Field>): seq<Member>
    decreases fields, 0
  {
    if fields == [] then []
    else
      var first := ToJson(fields[0].value);
      (if first.Some? then [Member(fields[0].key, first.value)] else []) + FieldsToJson(fields[1..])
  }

  function FromJson(j: Json): Js
    decreases j, 1
  {
    match j
    case JNull => Null
    case JBool(truth) => Bool(truth)
    case JNum(number) => Num(number)
    case JStr(text) => Str(text)
    case JArr(items) => Arr(ItemsFromJson(items))
    case JObj(members) => Obj(true, FieldsFromJson(members))
  }

  function ItemsFromJson(items: seq<Json>): seq<Js>
    decreases items, 0
  {
    if items == [] then [] else [FromJson(items[0])] + ItemsFromJson(items[1..])
  }

  function FieldsFromJson(members: seq<Member>): seq<Field>
    decreases members, 0
  {
    if members == [] then [] else [Field(members[0].key, FromJson(members[0].value))] + FieldsFromJson(members[1..])
  }

  // ---- stripSensitive ----

  const SECRET_WORDS: seq<string> :=
    ["password", "passwordhash", "password_hash", "token", "refreshtoken", "accesstoken", "secret", "providersecret",
     "credential", "apikey"]

  predicate SecretKey(key: string) {
    exists w | w in SECRET_WORDS :: Contains(Lower(key), w)
  }

  /** Such a field does not reach the copy: the loop skips secrets, and assigning to `__proto__` creates no field. */
  predicate Dropped(key: string) {
    SecretKey(key) || key == "__proto__"
  }

  /** Only arrays and plain objects are walked. */
  function Strip(v: Js): Js
    decreases v, 1
  {
    match v
    case Arr(items) => Arr(StripItems(items))
    case Obj(plain, fields) => if plain then Obj(true, StripFields(fields)) else v
    case _ => v
  }

  function StripItems(items: seq<Js>): seq<Js>
    decreases items, 0
  {
    if items == [] then [] else [Strip(items[0])] + StripItems(items[1..])
  }

  function StripFields(fields: seq<Field>): seq<Field>
    decreases fields, 0
  {
    if fields == [] then []
    else
      (if Dropped(fields[0].key) then [] else [Field(fields[0].key, Strip(fields[0].value))])
      + StripFields(fields[1..])
  }

  // ---- when a hit shows what the miss showed ----

  /** Every field that JSON would show under a dropped key is absent, wherever the strip looks. */
  predicate NothingToStrip(v: Js)
    decreases v, 1
  {
    match v
    case Arr(items) => ItemsSurvive(items)
    case Obj(plain, fields) => plain ==> FieldsSurvive(fields)
    case _ => true
  }

  predicate ItemsSurvive(items: seq<Js>)
    decreases items, 0
  {
    items == [] || (NothingToStrip(items[0]) && ItemsSurvive(items[1..]))
  }

  predicate FieldsSurvive(fields: seq<Field>)
    decreases fields, 0
  {
    fields == [] ||
    (var Field(key, value) := fields[0];
     (if Dropped(key) then ToJson(value).None? else NothingToStrip(value)) && FieldsSurvive(fields[1..]))
  }

  /** A client sees the same JSON from the cache as from the load if and only if no visible field was stripped. */
  lemma {:induction false} HitShowsTheMissIff(v: Js)
    ensures ToJson(Strip(v)).Some? <==> ToJson(v).Some?
    ensures ToJson(Strip(v)) == ToJson(v) <==> NothingToStrip(v)
    decreases v, 1
  {
    if v.Arr? {
      ItemsShownIff(v.items);
    } else if v.Obj? && v.plain {
      FieldsShownIff(v.fields);
    }
  }

  lemma {:induction false} ItemsShownIff(items: seq<Js>)
    ensures ItemsToJson(StripItems(items)) == ItemsToJson(items) <==> ItemsSurvive(items)
    decreases items, 0
  {
    if items != [] {
      var rest := items[1..];
      HitShowsTheMissIff(items[0]);
      ItemsShownIff(rest);
      assert items == [items[0]] + rest;
      assert StripItems(items)[1..] == StripItems(rest);
      var a, b := ItemsToJson(StripItems(items)), ItemsToJson(items);
      assert a[1..] == ItemsToJson(StripItems(rest)) && b[1..] == ItemsToJson(rest);
      assert a == b <==> a[0] == b[0] && a[1..] == b[1..] by {
        assert a == [a[0]] + a[1..] && b == [b[0]] + b[1..];
      }
    }
  }

  lemma StrippedStep(f: Field, rest: seq<Field>)
    ensures FieldsToJson(StripFields([f] + rest))
            == (if Dropped(f.key) || ToJson(Strip(f.value)).None? then []
                else [Member(f.key, ToJson(Strip(f.value)).value)]) + FieldsToJson(StripFields(rest))
  {
    assert ([f] + rest)[1..] == rest;
    if Dropped(f.key) {
      assert StripFields([f] + rest) == StripFields(rest);
    } else {
      assert StripFields([f] + rest)[1..] == StripFields(rest);
    }
  }

  lemma {:induction false} FieldsShownIff(fields: seq<Field>)
    ensures |FieldsToJson(StripFields(fields))| <= |FieldsToJson(fields)|
    ensures FieldsToJson(StripFields(fields)) == FieldsToJson(fields) <==> FieldsSurvive(fields)
    decreases fields, 0
  {
    if fields != [] {
      var f, rest := fields[0], fields[1..];
      HitShowsTheMissIff(f.value);
      FieldsShownIff(rest);
      assert fields == [f] + rest;
      StrippedStep(f, rest);
      var a, b := FieldsToJson(StripFields(fields)), FieldsToJson(fields);
      var x, y := FieldsToJson(StripFields(rest)), FieldsToJson(rest);
      if ToJson(f.value).None? {
        assert a == x && b == y;
      } else if Dropped(f.key) {
        assert a == x && |b| == 1 + |y|;
      } else {
        assert a[0].value == ToJson(Strip(f.value)).value && b[0].value == ToJson(f.value).value;
        assert a == [a[0]] + x && b == [b[0]] + y;
        assert a == b <==> a[0] == b[0] && x == y by {
          assert a[1..] == x && b[1..] == y;
        }
      }
    }
  }

  // ---- what is stored ----

  /** No secret under any key, at any depth. */
  predicate NoSecrets(j: Json)
    decreases j, 1
  {
    match j
    case JArr(items) => NoSecretItems(items)
    case JObj(members) => NoSecretMembers(members)
    case _ => true
  }

  predicate NoSecretItems(items: seq<Json>)
    decreases items, 0
  {
    items == [] || (NoSecrets(items[0]) && NoSecretItems(items[1..]))
  }

  predicate NoSecretMembers(members: seq<Member>)
    decreases members, 0
  {
    members == [] || (!SecretKey(members[0].key) && NoSecrets(members[0].value) && NoSecretMembers(members[1..]))
  }

  /** Instances are stored whole; none of those that are kept shows a secret. */
  predicate InstancesHoldNone(v: Js)
    decreases v, 1
  {
    match v
    case Arr(items) => ItemsHoldNone(items)
    case Obj(plain, fields) => if plain then FieldsHoldNone(fields) else NoSecretMembers(FieldsToJson(fields))
    case _ => true
  }

  predicate ItemsHoldNone(items: seq<Js>)
    decreases items, 0
  {
    items == [] || (InstancesHoldNone(items[0]) && ItemsHoldNone(items[1..]))
  }

  predicate FieldsHoldNone(fields: seq<Field>)
    decreases fields, 0
  {
    fields == [] || ((Dropped(fields[0].key) || InstancesHoldNone(fields[0].value)) && FieldsHoldNone(fields[1..]))
  }

  /** What is stored shows no secret if and only if no class instance in the value does. */
  lemma {:induction false} StoredIsCleanIff(v: Js)
    ensures (ToJson(Strip(v)).Some? ==> NoSecrets(ToJson(Strip(v)).value)) <==> InstancesHoldNone(v)
    decreases v, 1
  {
    if v.Arr? {
      StoredItemsAreClean(v.items);
    } else if v.Obj? && v.plain {
      StoredFieldsAreClean(v.fields);
    }
  }

  lemma {:induction false} StoredItemsAreClean(items: seq<Js>)
    ensures NoSecretItems(ItemsToJson(StripItems(items))) <==> ItemsHoldNone(items)
    decreases items, 0
  {
    if items != [] {
      var rest := items[1..];
      StoredIsCleanIff(items[0]);
      StoredItemsAreClean(rest);
      assert items == [items[0]] + rest;
      assert StripItems(items)[1..] == StripItems(rest);
      var a := ItemsToJson(StripItems(items));
      assert a[1..] == ItemsToJson(StripItems(rest));
    }
  }

  lemma {:induction false} StoredFieldsAreClean(fields: seq<Field>)
    ensures NoSecretMembers(FieldsToJson(StripFields(fields))) <==> FieldsHoldNone(fields)
    decreases fields, 0
  {
    if fields != [] {
      var f, rest := fields[0], fields[1..];
      StoredIsCleanIff(f.value);
      StoredFieldsAreClean(rest);
      assert fields == [f] + rest;
      StrippedStep(f, rest);
      var a, x := FieldsToJson(StripFields(fields)), FieldsToJson(StripFields(rest));
      if Dropped(f.key) || ToJson(Strip(f.value)).None? {
        assert a == x;
      } else {
        var m := Member(f.key, ToJson(Strip(f.value)).value);
        assert a == [m] + x && a[1..] == x;
      }
    }
  }

  // ---- what is read back ----

  lemma {:induction false} RoundTrip(j: Json)
    ensures ToJson(FromJson(j)) == Some(j)
    decreases j, 1
  {
    if j.JArr? {
      ItemsRoundTrip(j.items);
    } else if j.JObj? {
      MembersRoundTrip(j.members);
    }
  }

  lemma {:induction false} ItemsRoundTrip(items: seq<Json>)
    ensures ItemsToJson(ItemsFromJson(items)) == items
    decreases items, 0
  {
    if items != [] {
      RoundTrip(items[0]);
      ItemsRoundTrip(items[1..]);
      assert ItemsFromJson(items)[1..] == ItemsFromJson(items[1..]);
    }
  }

  lemma {:induction false} MembersRoundTrip(members: seq<Member>)
    ensures FieldsToJson(FieldsFromJson(members)) == members
    decreases members, 0
  {
    if members != [] {
      RoundTrip(members[0].value);
      MembersRoundTrip(members[1..]);
      assert FieldsFromJson(members)[1..] == FieldsFromJson(members[1..]);
    }
  }

  // ---- inputs at which the two conditions fail ----

  lemma TokenIsSecret()
    ensures SecretKey("tokenCount") && SecretKey("token")
  {
    assert Lower("tokenCount")[0..] == Lower("tokenCount") && "token" <= Lower("tokenCount");
    assert Lower("token")[0..] == "token";
    assert "token" in SECRET_WORDS by {
      assert SECRET_WORDS[3] == "token";
    }
    assert Contains(Lower("tokenCount"), "token") && Contains(Lower("token"), "token");
  }

  lemma OneField(key: string, value: Js, j: Json)
    requires ToJson(value) == Some(j)
    ensures FieldsToJson([Field(key, value)]) == [Member(key, j)]
    ensures Dropped(key) ==> StripFields([Field(key, value)]) == []
  {
    assert [Field(key, value)][1..] == [];
  }

  /** An object with one field under a secret name: a plain one is stored empty, an instance whole. */
  lemma SecretField(key: string, value: Js, j: Json)
    requires SecretKey(key) && ToJson(value) == Some(j)
    ensures ToJson(Obj(true, [Field(key, value)])) == Some(JObj([Member(key, j)]))
    ensures ToJson(Strip(Obj(true, [Field(key, value)]))) == Some(JObj([]))
    ensures ToJson(Strip(Obj(false, [Field(key, value)]))) == Some(JObj([Member(key, j)]))
    ensures !NoSecrets(JObj([Member(key, j)]))
  {
    OneField(key, value, j);
    assert FieldsToJson([]) == [];
    assert !NoSecretMembers([Member(key, j)]);
  }

  /** A count of tokens is no secret, but its name contains the word: the miss shows it, and the hit does not. */
  lemma HitLosesACount(count: real)
    ensures var v := Obj(true, [Field("tokenCount", Num(count))]);
            ToJson(v) == Some(JObj([Member("tokenCount", JNum(count))])) && ToJson(Strip(v)) == Some(JObj([]))
  {
    TokenIsSecret();
    SecretField("tokenCount", Num(count), JNum(count));
  }

  /** A token inside an instance of a class is stored as it is. */
  lemma InstanceKeepsItsToken(token: string)
    ensures var stored := ToJson(Strip(Obj(false, [Field("token", Str(token))])));
            stored == Some(JObj([Member("token", JStr(token))])) && !NoSecrets(stored.value)
  {
    TokenIsSecret();
    SecretField("token", Str(token), JStr(token));
  }

  /** What holds a longer word holds its parts. */
  lemma ContainsPart(s: string, word: string, at: nat, part: string)
    requires at <= |word| && part <= word[at..] && Contains(s, word)
    ensures Contains(s, part)
  {
    var i :| 0 <= i <= |s| && word <= s[i..];
    assert s[i + at..] == s[i..][at..];
    assert part <= s[i + at..];
  }

  lemma WordIsListed(s: string, w: string)
    requires w in SECRET_WORDS && Contains(s, w)
    ensures Contains(s, "password") || Contains(s, "token") || Contains(s, "secret") || Contains(s, "credential")
            || Contains(s, "apikey")
  {
    if w == "passwordhash" || w == "password_hash" {
      ContainsPart(s, w, 0, "password");
    } else if w == "refreshtoken" {
      ContainsPart(s, w, 7, "token");
    } else if w == "accesstoken" {
      ContainsPart(s, w, 6, "token");
    } else if w == "providersecret" {
      ContainsPart(s, w, 8, "secret");
    }
  }

  /** Ten words are listed; five of them decide which fields are dropped. */
  lemma FiveWordsDecide(key: string)
    ensures Dropped(key) <==>
              var s := Lower(key);
              Contains(s, "password") || Contains(s, "token") || Contains(s, "secret") || Contains(s, "credential")
              || Contains(s, "apikey") || key == "__proto__"
  {
    var s := Lower(key);
    if SecretKey(key) {
      var w :| w in SECRET_WORDS && Contains(s, w);
      WordIsListed(s, w);
    }
    assert SECRET_WORDS[0] == "password" && SECRET_WORDS[3] == "token" && SECRET_WORDS[6] == "secret";
    assert SECRET_WORDS[8] == "credential" && SECRET_WORDS[9] == "apikey";
  }

  /** So a key is dropped when one of the five stands anywhere in it, in any case. */
  lemma WordsAreDropped(before: string, word: string, after: string)
    requires Lower(word) in {"password", "token", "secret", "credential", "apikey"}
    ensures Dropped(before + word + after)
  {
    Holds(before, word, after);
    FiveWordsDecide(before + word + after);
  }

  /** What an object's field shows after it has been through the cache: timestamps and Decimals their text, primitives
    * themselves, and what JSON cannot hold nothing. */
  lemma FieldsSurviveTheCache(key: string, value: Js)
    requires !Dropped(key)
    ensures var stored := ToJson(Strip(Obj(true, [Field(key, value)])));
            && stored.Some?
            && var back := FromJson(stored.value);
               match value
               case Null => back == Obj(true, [Field(key, Null)])
               case Str(_) => back == Obj(true, [Field(key, value)])
               case Num(_) => back == Obj(true, [Field(key, value)])
               case Bool(_) => back == Obj(true, [Field(key, value)])
               case Date(iso) => back == Obj(true, [Field(key, Str(iso))])
               case Decimal(digits) => back == Obj(true, [Field(key, Str(digits))])
               case Undefined => back == Obj(true, [])
               case Other(_) => back == Obj(true, [])
               case _ => exists kept :: back == Obj(true, [Field(key, kept)]) && (kept.Arr? <==> value.Arr?)
  {
    var f := Field(key, value);
    assert [f] + [] == [f];
    StrippedStep(f, []);
    assert StripFields([]) == [] && FieldsToJson([]) == [];
    var shown := ToJson(Strip(value));
    if shown.Some? {
      var m := Member(key, shown.value);
      assert [m][1..] == [] && FieldsFromJson([m]) == [Field(key, FromJson(m.value))];
    }
  }

  // ---- getOrSet ----

  /** `getOrSet`: a stored null reads as a miss; a load that answered nothing is not stored. */
  method GetOrSet(cache: Cache<Json>, key: string, loaded: Js, ttlSeconds: int, getOk: bool, setOk: bool)
    returns (value: Js, hit: bool)
    modifies cache`store
    ensures hit <==> && getOk && key in old(cache.store) && old(cache.store[key].value) != JNull
                     && (old(cache.store[key].expiresAt).None?
                         || cache.now < old(cache.store[key].expiresAt).value)
    ensures hit ==> ToJson(value) == Some(old(cache.store[key].value)) && value != Null
    ensures !hit ==> value == loaded
    ensures var json := ToJson(Strip(loaded));
            cache.store == if hit || !setOk || loaded == Null || json.None? then old(cache.store)
                           else old(cache.store)[key := Stored(json.value, if ttlSeconds > 0
                                                                           then Some(cache.now + ttlSeconds) else None)]
  {
    var cached := cache.Get(key, getOk);
    if cached.Some? && cached.value != JNull {
      RoundTrip(cached.value);
      return FromJson(cached.value), true;
    }
    value, hit := loaded, false;
    if loaded != Null && loaded != Undefined {
      var json := ToJson(Strip(loaded));
      if json.Some? {
        var _ := cache.Set(key, json.value, ttlSeconds, setOk);
      }
    }
  }
}
