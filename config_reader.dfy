/**
 * Reading configuration values: `_get_config` walks a schema over the parsed
 * file and collects the wanted options into one flat dictionary, and
 * `get_qqbot_config` does so with the application's fixed schema.
 *
 * The file system is reduced to whether the path exists and, when it does, the
 * store that reading it produces.
 */
module ConfigReader {
  import opened Schemas
  import opened ConfigStore
  import opened ConfigErrors

  /** The outcome of a read: the flat dictionary of values, or the error raised. */
  datatype ReadResult = Ok(values: map<string, string>) | Err(error: ConfigError)

  // ---------------------------------------------------------------------------
  // The walk, as functions

  /**
   * The list branch: look the keys up in order, writing each value into `acc`;
   * a failed lookup becomes the module's own error and ends the walk.
   */
  function WalkKeys(store: Store, section: string, keys: seq<string>, acc: map<string, string>): ReadResult
    decreases |keys|
  {
    if keys == [] then Ok(acc)
    else
      match Get(store, section, keys[0])
      case Value(v) => WalkKeys(store, section, keys[1..], acc[keys[0] := v])
      case NoSection => Err(NoSectionError(section))
      case NoOption => Err(NoOptionError(section, keys[0]))
  }

  /** The loop over the schema's items, in order, from the values collected so far. */
  function Walk(store: Store, entries: seq<(string, Entry)>, acc: map<string, string>): ReadResult
    decreases |entries|
  {
    if entries == [] then Ok(acc)
    else
      var (section, value) := entries[0];
      match value
      case Multi(keys) =>
        (match WalkKeys(store, section, keys, acc)
         case Ok(acc') => Walk(store, entries[1..], acc')
         case Err(e) => Err(e))
      case Single(key) =>
        (match Get(store, section, key)
         case Value(v) => Walk(store, entries[1..], acc[key := v])
         case NoSection => Err(LibraryError(LibNoSectionError(section)))
         case NoOption => Err(LibraryError(LibNoOptionError(key, section))))
      case Other(_) => Err(ConfigParamTypeError(EntryValue(value), TypeName("str or list")))
  }

  /** `_get_config(path, config_dict)` as a function of the path's existence and the parsed store. */
  function ReadConfig(pathExists: bool, path: string, store: Store, schema: Schema): ReadResult
  {
    if !pathExists then Err(ConfigNotFoundError(path))
    else
      match schema
      case NotDict(_) => Err(ConfigParamTypeError(SchemaValue(schema), DictClass))
      case Dict(entries) => Walk(store, entries, map[])
  }

  // ---------------------------------------------------------------------------
  // When every lookup succeeds

  /** Every key of a list entry is found in its section. */
  predicate KeysResolve(store: Store, section: string, keys: seq<string>) {
    forall j :: 0 <= j < |keys| ==> Get(store, section, keys[j]).Value?
  }

  /** An entry is a list or a single name, and each of its names is found. */
  predicate EntryResolves(store: Store, section: string, e: Entry) {
    match e
    case Multi(keys) => KeysResolve(store, section, keys)
    case Single(key) => Get(store, section, key).Value?
    case Other(_) => false
  }

  /** Every entry of the schema resolves against the store. */
  predicate Resolves(store: Store, entries: seq<(string, Entry)>) {
    forall i :: 0 <= i < |entries| ==> EntryResolves(store, entries[i].0, entries[i].1)
  }

  lemma {:induction false} WalkKeysResolved(store: Store, section: string, keys: seq<string>, acc: map<string, string>)
    requires KeysResolve(store, section, keys)
    ensures WalkKeys(store, section, keys, acc).Ok?
    ensures var m := WalkKeys(store, section, keys, acc).values;
            && m.Keys == acc.Keys + (set k | k in keys)
            && (forall k :: k in m && k in keys ==> Get(store, section, k) == Value(m[k]))
            && (forall k :: k in m && k !in keys ==> m[k] == acc[k])
  {
    if keys != [] {
      assert Get(store, section, keys[0]).Value?;
      var acc' := acc[keys[0] := Get(store, section, keys[0]).v];
      assert KeysResolve(store, section, keys[1..]) by {
        forall j | 0 <= j < |keys[1..]| ensures Get(store, section, keys[1..][j]).Value? {
          assert keys[1..][j] == keys[j + 1];
        }
      }
      WalkKeysResolved(store, section, keys[1..], acc');
      assert forall k :: k in keys <==> k == keys[0] || k in keys[1..];
    }
  }

  lemma {:induction false} WalkKeysOkResolves(store: Store, section: string, keys: seq<string>, acc: map<string, string>)
    requires WalkKeys(store, section, keys, acc).Ok?
    ensures KeysResolve(store, section, keys)
  {
    if keys != [] {
      var acc' := acc[keys[0] := Get(store, section, keys[0]).v];
      WalkKeysOkResolves(store, section, keys[1..], acc');
      forall j | 0 <= j < |keys| ensures Get(store, section, keys[j]).Value? {
        if j > 0 {
          assert keys[j] == keys[1..][j - 1];
        }
      }
    }
  }

  /** The values an entry writes, and every other value left as it was. */
  lemma EntryStep(store: Store, entries: seq<(string, Entry)>, acc: map<string, string>) returns (acc': map<string, string>)
    requires entries != [] && EntryResolves(store, entries[0].0, entries[0].1)
    ensures Walk(store, entries, acc) == Walk(store, entries[1..], acc')
    ensures acc'.Keys == acc.Keys + (set k | k in Names(entries[0].1))
    ensures forall k :: k in acc' && k in Names(entries[0].1) ==> Get(store, entries[0].0, k) == Value(acc'[k])
    ensures forall k :: k in acc' && k !in Names(entries[0].1) ==> acc'[k] == acc[k]
  {
    var (section, value) := entries[0];
    match value
    case Multi(keys) =>
      WalkKeysResolved(store, section, keys, acc);
      acc' := WalkKeys(store, section, keys, acc).values;
    case Single(key) =>
      acc' := acc[key := Get(store, section, key).v];
  }

  lemma {:induction false} WalkResolved(store: Store, entries: seq<(string, Entry)>, acc: map<string, string>)
    requires Resolves(store, entries)
    ensures Walk(store, entries, acc).Ok?
    ensures var m := Walk(store, entries, acc).values;
            && m.Keys == acc.Keys + KeySet(entries)
            && (forall k :: k in m && k in KeySet(entries) ==> Get(store, Owner(entries, k), k) == Value(m[k]))
            && (forall k :: k in m && k !in KeySet(entries) ==> m[k] == acc[k])
  {
    if entries != [] {
      assert EntryResolves(store, entries[0].0, entries[0].1);
      var acc' := EntryStep(store, entries, acc);
      assert Resolves(store, entries[1..]) by {
        forall i | 0 <= i < |entries[1..]| ensures EntryResolves(store, entries[1..][i].0, entries[1..][i].1) {
          assert entries[1..][i] == entries[i + 1];
        }
      }
      WalkResolved(store, entries[1..], acc');
    }
  }

  lemma {:induction false} WalkOkResolves(store: Store, entries: seq<(string, Entry)>, acc: map<string, string>)
    requires Walk(store, entries, acc).Ok?
    ensures Resolves(store, entries)
  {
    if entries != [] {
      var (section, value) := entries[0];
      var acc': map<string, string>;
      match value {
        case Multi(keys) =>
          WalkKeysOkResolves(store, section, keys, acc);
          acc' := WalkKeys(store, section, keys, acc).values;
        case Single(key) =>
          acc' := acc[key := Get(store, section, key).v];
      }
      WalkOkResolves(store, entries[1..], acc');
      forall i | 0 <= i < |entries| ensures EntryResolves(store, entries[i].0, entries[i].1) {
        if i > 0 {
          assert entries[i] == entries[1..][i - 1];
        }
      }
    }
  }

  /**
   * A read succeeds exactly when the path exists, the schema is a dictionary and
   * every entry resolves; the result then holds exactly the names the schema asks
   * for, each with the store's text for the last section that names it.
   */
  lemma ReadSucceeds(pathExists: bool, path: string, store: Store, schema: Schema)
    ensures ReadConfig(pathExists, path, store, schema).Ok? <==>
              pathExists && schema.Dict? && Resolves(store, schema.entries)
    ensures ReadConfig(pathExists, path, store, schema).Ok? ==>
              var m := ReadConfig(pathExists, path, store, schema).values;
              && m.Keys == KeySet(schema.entries)
              && forall k :: k in m ==> Get(store, Owner(schema.entries, k), k) == Value(m[k])
  {
    if pathExists && schema.Dict? {
      if Resolves(store, schema.entries) {
        WalkResolved(store, schema.entries, map[]);
      } else if Walk(store, schema.entries, map[]).Ok? {
        WalkOkResolves(store, schema.entries, map[]);
      }
    }
  }

  // ---------------------------------------------------------------------------
  // Where a read fails

  /** A missing path fails with its own error, whatever the schema and the store. */
  lemma ReadMissingPath(path: string, store: Store, schema: Schema)
    ensures ReadConfig(false, path, store, schema) == Err(ConfigNotFoundError(path))
  {
  }

  /** A schema that is not a dictionary is refused before any lookup. */
  lemma ReadNotDict(path: string, store: Store, schema: Schema)
    requires schema.NotDict?
    ensures ReadConfig(true, path, store, schema) == Err(ConfigParamTypeError(SchemaValue(schema), DictClass))
  {
  }

  /** The walk passes over a prefix of entries that resolve, whatever values they write. */
  lemma {:induction false} WalkSkipsResolved(store: Store, entries: seq<(string, Entry)>, i: nat, acc: map<string, string>)
    returns (acc': map<string, string>)
    requires i <= |entries| && Resolves(store, entries[..i])
    ensures Walk(store, entries, acc) == Walk(store, entries[i..], acc')
  {
    if i == 0 {
      acc' := acc;
    } else {
      assert EntryResolves(store, entries[..i][0].0, entries[..i][0].1);
      var acc1 := EntryStep(store, entries, acc);
      var rest := entries[1..][..i - 1];
      assert Resolves(store, rest) by {
        forall k | 0 <= k < |rest| ensures EntryResolves(store, rest[k].0, rest[k].1) {
          assert rest[k] == entries[..i][k + 1];
        }
      }
      acc' := WalkSkipsResolved(store, entries[1..], i - 1, acc1);
      assert entries[1..][i - 1..] == entries[i..];
    }
  }

  /** The list branch passes over a prefix of keys that are found. */
  lemma {:induction false} WalkKeysSkipsResolved(store: Store, section: string, keys: seq<string>, j: nat, acc: map<string, string>)
    returns (acc': map<string, string>)
    requires j <= |keys| && KeysResolve(store, section, keys[..j])
    ensures WalkKeys(store, section, keys, acc) == WalkKeys(store, section, keys[j..], acc')
  {
    if j == 0 {
      acc' := acc;
    } else {
      assert keys[..j][0] == keys[0];
      assert Get(store, section, keys[..j][0]).Value?;
      var acc1 := acc[keys[0] := Get(store, section, keys[0]).v];
      var rest := keys[1..][..j - 1];
      assert KeysResolve(store, section, rest) by {
        forall k | 0 <= k < |rest| ensures Get(store, section, rest[k]).Value? {
          assert rest[k] == keys[..j][k + 1];
        }
      }
      acc' := WalkKeysSkipsResolved(store, section, keys[1..], j - 1, acc1);
      assert keys[1..][j - 1..] == keys[j..];
    }
  }

  /**
   * An entry that is neither a list nor a string fails the whole read once the
   * walk reaches it; the values written before are dropped.
   */
  lemma ReadStopsAtOtherEntry(path: string, store: Store, entries: seq<(string, Entry)>, i: nat)
    requires i < |entries| && Resolves(store, entries[..i]) && entries[i].1.Other?
    ensures ReadConfig(true, path, store, Dict(entries)) ==
              Err(ConfigParamTypeError(EntryValue(entries[i].1), TypeName("str or list")))
  {
    var acc := WalkSkipsResolved(store, entries, i, map[]);
    assert entries[i..][0] == entries[i];
  }

  /**
   * A list entry whose section is missing fails the read with that section.
   * Whether a section is missing does not depend on the key, so it is always
   * the entry's first key that fails.
   */
  lemma ReadStopsAtMissingSection(path: string, store: Store, entries: seq<(string, Entry)>, i: nat)
    requires i < |entries| && Resolves(store, entries[..i])
    requires entries[i].1.Multi? && |entries[i].1.keys| > 0
    requires Get(store, entries[i].0, entries[i].1.keys[0]) == NoSection
    ensures ReadConfig(true, path, store, Dict(entries)) == Err(NoSectionError(entries[i].0))
  {
    var acc := WalkSkipsResolved(store, entries, i, map[]);
    assert entries[i..][0] == entries[i];
  }

  /**
   * In a list entry, the first key missing from an existing section fails the
   * read with `NoOptionError(section, key)`: the section name is stored as the
   * error's `option` and the key as its `section`.
   */
  lemma ReadStopsAtMissingOption(path: string, store: Store, entries: seq<(string, Entry)>, i: nat, j: nat)
    requires i < |entries| && Resolves(store, entries[..i])
    requires entries[i].1.Multi? && j < |entries[i].1.keys|
    requires KeysResolve(store, entries[i].0, entries[i].1.keys[..j])
    requires Get(store, entries[i].0, entries[i].1.keys[j]) == NoOption
    ensures ReadConfig(true, path, store, Dict(entries)) == Err(NoOptionError(entries[i].0, entries[i].1.keys[j]))
    ensures ReadConfig(true, path, store, Dict(entries)).error.option == entries[i].0
    ensures ReadConfig(true, path, store, Dict(entries)).error.section == entries[i].1.keys[j]
  {
    var acc := WalkSkipsResolved(store, entries, i, map[]);
    assert entries[i..][0] == entries[i];
    var keys := entries[i].1.keys;
    var acc' := WalkKeysSkipsResolved(store, entries[i].0, keys, j, acc);
    assert keys[j..][0] == keys[j];
  }

  /**
   * A single-name entry whose lookup fails lets the library's own exception
   * through, untranslated.
   */
  lemma ReadSingleEscapes(path: string, store: Store, entries: seq<(string, Entry)>, i: nat)
    requires i < |entries| && Resolves(store, entries[..i]) && entries[i].1.Single?
    requires !Get(store, entries[i].0, entries[i].1.key).Value?
    ensures var r := ReadConfig(true, path, store, Dict(entries));
            && r.Err? && !IsConfigError(r.error)
            && (Get(store, entries[i].0, entries[i].1.key) == NoSection ==>
                  r.error.cause == LibNoSectionError(entries[i].0))
            && (Get(store, entries[i].0, entries[i].1.key) == NoOption ==>
                  r.error.cause == LibNoOptionError(entries[i].1.key, entries[i].0))
  {
    var acc := WalkSkipsResolved(store, entries, i, map[]);
    assert entries[i..][0] == entries[i];
  }

  /** A schema made only of lists can fail only with the module's own errors. */
  lemma {:induction false} WalkListsOnlyConfigErrors(store: Store, entries: seq<(string, Entry)>, acc: map<string, string>)
    requires forall i :: 0 <= i < |entries| ==> entries[i].1.Multi?
    ensures var r := Walk(store, entries, acc);
            r.Err? ==> r.error.NoSectionError? || r.error.NoOptionError?
  {
    if entries != [] {
      var (section, value) := entries[0];
      assert value.Multi?;
      var ks := WalkKeys(store, section, value.keys, acc);
      WalkKeysOnlyConfigErrors(store, section, value.keys, acc);
      if ks.Ok? {
        assert forall i :: 0 <= i < |entries[1..]| ==> entries[1..][i] == entries[i + 1];
        WalkListsOnlyConfigErrors(store, entries[1..], ks.values);
      }
    }
  }

  lemma {:induction false} WalkKeysOnlyConfigErrors(store: Store, section: string, keys: seq<string>, acc: map<string, string>)
    ensures var r := WalkKeys(store, section, keys, acc);
            r.Err? ==> r.error.NoSectionError? || r.error.NoOptionError?
  {
    if keys != [] && Get(store, section, keys[0]).Value? {
      WalkKeysOnlyConfigErrors(store, section, keys[1..], acc[keys[0] := Get(store, section, keys[0]).v]);
    }
  }

  // ---------------------------------------------------------------------------
  // The walk, as the source runs it

  /**
   * `_get_config(path, config_dict)`: builds the dictionary in place with nested
   * loops and returns at the first failure, so no partial dictionary escapes.
   */
  method GetConfig(pathExists: bool, path: string, store: Store, schema: Schema) returns (r: ReadResult)
    ensures r == ReadConfig(pathExists, path, store, schema)
  {
    var configValues: map<string, string> := map[];
    if pathExists {
      match schema
      case Dict(entries) =>
        var i := 0;
        while i < |entries|
          invariant 0 <= i <= |entries|
          invariant Walk(store, entries[i..], configValues) == Walk(store, entries, map[])
        {
          var (section, value) := entries[i];
          assert entries[i..][0] == entries[i] && entries[i..][1..] == entries[i + 1..];
          match value {
          case Multi(keys) =>
            ghost var before := configValues;
            var j := 0;
            while j < |keys|
              invariant 0 <= j <= |keys|
              invariant WalkKeys(store, section, keys[j..], configValues) == WalkKeys(store, section, keys, before)
            {
              var item := keys[j];
              assert keys[j..][0] == item && keys[j..][1..] == keys[j + 1..];
              match Get(store, section, item) {
                case Value(v) =>
                  configValues := configValues[item := v];
                case NoSection =>
                  return Err(NoSectionError(section));
                case NoOption =>
                  return Err(NoOptionError(section, item));
              }
              j := j + 1;
            }
          case Single(key) =>
            match Get(store, section, key) {
              case Value(v) =>
                configValues := configValues[key := v];
              case NoSection =>
                return Err(LibraryError(LibNoSectionError(section)));
              case NoOption =>
                return Err(LibraryError(LibNoOptionError(key, section)));
            }
          case Other(_) =>
            return Err(ConfigParamTypeError(EntryValue(value), TypeName("str or list")));
          }
          i := i + 1;
        }
      case NotDict(_) =>
        return Err(ConfigParamTypeError(SchemaValue(schema), DictClass));
    } else {
      return Err(ConfigNotFoundError(path));
    }
    return Ok(configValues);
  }

  // ---------------------------------------------------------------------------
  // The application's schema

  /** The eight option names the application reads. */
  const QqbotKeys: set<string> :=
    {"chat_enabled", "share_enabled", "remember_enabled", "account", "password",
     "bot_name", "need_train", "train_data"}

  /** The fixed schema of `get_qqbot_config`: three sections, each a list of option names. */
  function QqbotSchema(): (s: Schema)
    ensures s.Dict? && |s.entries| == 3 && DistinctSections(s.entries)
    ensures forall i :: 0 <= i < |s.entries| ==> s.entries[i].1.Multi?
    ensures KeySet(s.entries) == QqbotKeys
  {
    var s := Dict([("DEFAULT", Multi(["chat_enabled", "share_enabled", "remember_enabled"])),
                   ("PERSONAL", Multi(["account", "password"])),
                   ("CHATBOT", Multi(["bot_name", "need_train", "train_data"]))]);
    assert s.entries[1..][1..][1..] == [];
    s
  }

  /**
   * Although the documentation of `get_qqbot_config` reads PERSONAL and CHATBOT
   * only "if present", the code needs both sections: without either the read
   * fails, and once the DEFAULT options are found a missing PERSONAL section
   * gives `NoSectionError("PERSONAL")`.
   */
  lemma GetQqbotConfigNeedsSections(path: string, store: Store)
    ensures "PERSONAL" !in store.sections || "CHATBOT" !in store.sections ==>
              ReadConfig(true, path, store, QqbotSchema()).Err?
    ensures "PERSONAL" !in store.sections &&
            KeysResolve(store, DefaultSection, ["chat_enabled", "share_enabled", "remember_enabled"]) ==>
              ReadConfig(true, path, store, QqbotSchema()) == Err(NoSectionError("PERSONAL"))
  {
    var entries := QqbotSchema().entries;
    ReadSucceeds(true, path, store, QqbotSchema());
    if ReadConfig(true, path, store, QqbotSchema()).Ok? {
      assert EntryResolves(store, entries[1].0, entries[1].1);
      assert EntryResolves(store, entries[2].0, entries[2].1);
      assert Get(store, "PERSONAL", "account").Value?;
      assert Get(store, "CHATBOT", "bot_name").Value?;
    }
    if "PERSONAL" !in store.sections &&
       KeysResolve(store, DefaultSection, ["chat_enabled", "share_enabled", "remember_enabled"]) {
      assert Resolves(store, entries[..1]) by {
        assert entries[..1][0] == entries[0];
      }
      ReadStopsAtMissingSection(path, store, entries, 1);
    }
  }

  /**
   * `get_qqbot_config(path)`: reads with the fixed schema; since every entry is
   * a list, only the module's own errors can come out, and a success holds
   * exactly the eight option names.
   */
  method GetQqbotConfig(pathExists: bool, path: string, store: Store) returns (r: ReadResult)
    ensures r == ReadConfig(pathExists, path, store, QqbotSchema())
    ensures r.Err? ==> r.error.ConfigNotFoundError? || r.error.NoSectionError? || r.error.NoOptionError?
    ensures !pathExists ==> r == Err(ConfigNotFoundError(path))
    ensures r.Ok? ==> r.values.Keys == QqbotKeys
  {
    r := GetConfig(pathExists, path, store, QqbotSchema());
    WalkListsOnlyConfigErrors(store, QqbotSchema().entries, map[]);
    ReadSucceeds(pathExists, path, store, QqbotSchema());
  }
}
