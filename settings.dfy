/** The device settings update (index.js:166-174, 194-201): the parsed
    `settings.json` gets every developer setting assigned over it with
    `content[key] = settings[key]`, one key at a time in the settings
    object's own order. A JSON object is kept as its members in insertion
    order, which is the order `JSON.stringify` writes them back in. */
module Settings {
  import opened Wrappers

  datatype Json =
    | Null
    | Bool(b: bool)
    | Num(n: int)
    | Str(s: string)
    | Arr(items: seq<Json>)
    | Obj(members: seq<(string, Json)>)

  type Members = seq<(string, Json)>

  /** No key occurs twice, as in any object. */
  predicate UniqueKeys(m: Members)
  {
    forall i, j | 0 <= i < j < |m| :: m[i].0 != m[j].0
  }

  /** `content[key]`, `None` for an absent key. */
  function Lookup(m: Members, k: string): (r: Option<Json>)
    ensures r.None? <==> forall i | 0 <= i < |m| :: m[i].0 != k
    ensures r.Some? ==> exists i | 0 <= i < |m| :: m[i] == (k, r.value)
  {
    if m == [] then None
    else if m[0].0 == k then Some(m[0].1)
    else
      var r := Lookup(m[1..], k);
      assert forall i | 1 <= i < |m| :: m[i] == m[1..][i - 1];
      r
  }

  /** `content[key] = value`: an existing key keeps its place and takes the
      new value, a new key goes at the end. */
  function Assign(m: Members, k: string, v: Json): (r: Members)
    ensures Lookup(r, k) == Some(v)
    ensures forall k' | k' != k :: Lookup(r, k') == Lookup(m, k')
  {
    if m == [] then [(k, v)]
    else if m[0].0 == k then [(k, v)] + m[1..]
    else
      var rest := Assign(m[1..], k, v);
      assert ([m[0]] + rest)[1..] == rest;
      [m[0]] + rest
  }

  /** An assignment keeps every key in its place and adds a key, at the
      end, only when it is new. */
  lemma {:induction false} AssignKeys(m: Members, k: string, v: Json)
    ensures |Assign(m, k, v)| == if Lookup(m, k).Some? then |m| else |m| + 1
    ensures forall i | 0 <= i < |m| :: Assign(m, k, v)[i].0 == m[i].0
    ensures Lookup(m, k).None? ==> Assign(m, k, v)[|m|].0 == k
  {
    if m != [] && m[0].0 != k {
      AssignKeys(m[1..], k, v);
      var rest := Assign(m[1..], k, v);
      assert Assign(m, k, v) == [m[0]] + rest;
      forall i | 1 <= i < |m| ensures Assign(m, k, v)[i].0 == m[i].0 {
        assert m[i] == m[1..][i - 1];
      }
    }
  }

  /** An assignment never writes a key twice, so an object stays an
      object. */
  lemma AssignUnique(m: Members, k: string, v: Json)
    requires UniqueKeys(m)
    ensures UniqueKeys(Assign(m, k, v))
  {
    AssignKeys(m, k, v);
    var r := Assign(m, k, v);
    forall i, j | 0 <= i < j < |r| ensures r[i].0 != r[j].0 {
      assert r[i].0 == m[i].0;
      if j < |m| {
        assert r[j].0 == m[j].0;
      } else {
        assert |r| == |m| + 1 && j == |m|;
        assert Lookup(m, k).None?;
        assert r[j].0 == k;
        assert m[i].0 != k;
      }
    }
  }

  /** The assignments of every member of `overrides`, first to last. */
  function MergeAll(content: Members, overrides: Members): Members
    decreases |overrides|
  {
    if overrides == [] then content
    else MergeAll(Assign(content, overrides[0].0, overrides[0].1), overrides[1..])
  }

  /** The `for (var key in settings)` loop of index.js:197-199. */
  method ApplyOverrides(content: Members, settings: Members) returns (merged: Members)
    ensures merged == MergeAll(content, settings)
    ensures UniqueKeys(settings) ==> forall k ::
      Lookup(merged, k) == if Lookup(settings, k).Some? then Lookup(settings, k) else Lookup(content, k)
  {
    merged := content;
    var i := 0;
    while i < |settings|
      invariant 0 <= i <= |settings|
      invariant MergeAll(merged, settings[i..]) == MergeAll(content, settings)
    {
      assert settings[i..][1..] == settings[i + 1..];
      merged := Assign(merged, settings[i].0, settings[i].1);
      i := i + 1;
    }
    assert settings[i..] == [];
    if UniqueKeys(settings) {
      forall k {
        MergeLookup(content, settings, k);
      }
    }
  }

  /** After the merge an overridden key has its override's value and every
      other key keeps the value it had. */
  lemma {:induction false} MergeLookup(content: Members, overrides: Members, k: string)
    requires UniqueKeys(overrides)
    ensures Lookup(MergeAll(content, overrides), k) ==
      if Lookup(overrides, k).Some? then Lookup(overrides, k) else Lookup(content, k)
    decreases |overrides|
  {
    if overrides != [] {
      var (k0, v0) := overrides[0];
      var rest := overrides[1..];
      assert UniqueKeys(rest) by {
        forall i, j | 0 <= i < j < |rest| ensures rest[i].0 != rest[j].0 {
          assert rest[i] == overrides[i + 1] && rest[j] == overrides[j + 1];
        }
      }
      assert Lookup(rest, k0).None? by {
        forall i | 0 <= i < |rest| ensures rest[i].0 != k0 {
          assert rest[i] == overrides[i + 1];
        }
      }
      MergeLookup(Assign(content, k0, v0), rest, k);
    }
  }

  /** The object as a dictionary, forgetting key order. */
  function ToMap(m: Members): (r: map<string, Json>)
    ensures forall k :: k in r <==> Lookup(m, k).Some?
    ensures forall k | k in r :: Lookup(m, k) == Some(r[k])
  {
    if m == [] then map[] else ToMap(m[1..])[m[0].0 := m[0].1]
  }

  /** As dictionaries, the merge is the update of the file by the
      overrides. */
  lemma MergeAsMap(content: Members, overrides: Members)
    requires UniqueKeys(overrides)
    ensures ToMap(MergeAll(content, overrides)) == ToMap(content) + ToMap(overrides)
  {
    var merged := MergeAll(content, overrides);
    var l, c, o := ToMap(merged), ToMap(content), ToMap(overrides);
    forall k
      ensures k in l <==> k in c + o
      ensures k in l ==> l[k] == (c + o)[k]
    {
      MergeLookup(content, overrides, k);
      if k in o {
        assert Lookup(overrides, k) == Some(o[k]);
      } else if k in c {
        assert Lookup(content, k) == Some(c[k]);
      }
    }
    assert l == c + o;
  }

  /** Keys already in the file keep their positions; new keys follow them. */
  lemma {:induction false} MergeKeepsOrder(content: Members, overrides: Members)
    ensures |content| <= |MergeAll(content, overrides)|
    ensures forall i | 0 <= i < |content| :: MergeAll(content, overrides)[i].0 == content[i].0
    decreases |overrides|
  {
    if overrides != [] {
      var next := Assign(content, overrides[0].0, overrides[0].1);
      AssignKeys(content, overrides[0].0, overrides[0].1);
      MergeKeepsOrder(next, overrides[1..]);
    }
  }

  /** The merge of an object is an object: no key is written twice. */
  lemma {:induction false} MergeUnique(content: Members, overrides: Members)
    requires UniqueKeys(content)
    ensures UniqueKeys(MergeAll(content, overrides))
    decreases |overrides|
  {
    if overrides != [] {
      AssignUnique(content, overrides[0].0, overrides[0].1);
      MergeUnique(Assign(content, overrides[0].0, overrides[0].1), overrides[1..]);
    }
  }

  /** Assigning a key the value it already has changes nothing. */
  lemma {:induction false} AssignSame(m: Members, k: string, v: Json)
    requires Lookup(m, k) == Some(v)
    ensures Assign(m, k, v) == m
  {
    if m[0].0 != k {
      AssignSame(m[1..], k, v);
    } else {
      assert [(k, v)] + m[1..] == m;
    }
  }

  /** Merging overrides that a file already agrees with changes nothing. */
  lemma {:induction false} MergeNoop(m: Members, overrides: Members)
    requires forall j | 0 <= j < |overrides| :: Lookup(m, overrides[j].0) == Some(overrides[j].1)
    ensures MergeAll(m, overrides) == m
    decreases |overrides|
  {
    if overrides != [] {
      AssignSame(m, overrides[0].0, overrides[0].1);
      MergeNoop(m, overrides[1..]);
    }
  }

  /** Merging the same settings a second time changes nothing, so running
      the development-mode setup twice leaves the file as once. */
  lemma MergeIdempotent(content: Members, overrides: Members)
    requires UniqueKeys(overrides)
    ensures MergeAll(MergeAll(content, overrides), overrides) == MergeAll(content, overrides)
  {
    var m := MergeAll(content, overrides);
    forall j | 0 <= j < |overrides|
      ensures Lookup(m, overrides[j].0) == Some(overrides[j].1)
    {
      MergeLookup(content, overrides, overrides[j].0);
      assert Lookup(overrides, overrides[j].0) == Some(overrides[j].1) by {
        var r := Lookup(overrides, overrides[j].0);
        var i :| 0 <= i < |overrides| && overrides[i] == (overrides[j].0, r.value);
        assert i == j;
      }
    }
    MergeNoop(m, overrides);
  }

  /** The settings object of index.js:166-174, in its own key order. */
  const DeveloperSettings: Members := [
    ("developer.menu.enabled", Bool(true)),
    ("ftu.manifestURL", Null),
    ("debugger.remote-mode", Str("adb-devtools")),
    ("devtools.debugger.remote-enabled", Bool(true)),
    ("screen.timeout", Num(600)),
    ("lockscreen.locked", Bool(false)),
    ("lockscreen.enabled", Bool(false))
  ]

  lemma DeveloperSettingsUnique()
    ensures UniqueKeys(DeveloperSettings)
  {
  }

  datatype PushError = TypeError  // a property assigned on null or, in strict mode, on a primitive

  /** `pushSettings` on the parsed file (index.js:194-201): an object gets
      the developer settings merged in; an array takes the assignments as
      properties that `JSON.stringify` does not write, so it is written
      back unchanged; `null` and the primitives throw. */
  function PushSettings(content: Json): (r: Result<Json, PushError>)
    ensures r.Err? <==> !(content.Obj? || content.Arr?)
    ensures content.Arr? ==> r == Ok(content)
    ensures content.Obj? ==> r.Ok? && r.value.Obj?
  {
    match content
    case Obj(m) => Ok(Obj(MergeAll(m, DeveloperSettings)))
    case Arr(_) => Ok(content)
    case _ => Err(TypeError)
  }

  /** What a device's settings are after the update: every developer
      setting has its value, every other setting keeps its value and
      place, and the file is still an object with unique keys. */
  lemma PushSettingsObject(m: Members, k: string)
    requires UniqueKeys(m)
    ensures PushSettings(Obj(m)).Ok?
    ensures var r := PushSettings(Obj(m)).value.members;
      && UniqueKeys(r)
      && Lookup(r, k) == (if Lookup(DeveloperSettings, k).Some? then Lookup(DeveloperSettings, k) else Lookup(m, k))
      && |m| <= |r|
      && forall i | 0 <= i < |m| :: r[i].0 == m[i].0
  {
    DeveloperSettingsUnique();
    MergeLookup(m, DeveloperSettings, k);
    MergeUnique(m, DeveloperSettings);
    MergeKeepsOrder(m, DeveloperSettings);
  }

  /** Updating an already updated file changes nothing. */
  lemma PushSettingsIdempotent(content: Json)
    requires PushSettings(content).Ok?
    ensures PushSettings(PushSettings(content).value) == PushSettings(content)
  {
    if content.Obj? {
      DeveloperSettingsUnique();
      MergeIdempotent(content.members, DeveloperSettings);
    }
  }
}
