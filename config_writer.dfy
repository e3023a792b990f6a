/**
 * Producing the default configuration: `generate_qqbot_config` fills a fresh
 * parser with the default values and chooses the file to write it to.
 * Opening and writing that file are outside this model; the method hands back
 * the filled parser and the chosen path instead.
 */
module ConfigWriter {
  import opened Options
  import opened ConfigStore
  import opened ConfigReader

  /** The name of the generated file. */
  const FileName: string := "qqbot.cfg"

  /** `os.path.join(a, b)` with the POSIX separator. */
  function Join(a: string, b: string): (p: string)
    ensures |b| > 0 && b[0] == '/' ==> p == b
    ensures !(|b| > 0 && b[0] == '/') ==>
              && |a| + |b| <= |p| <= |a| + |b| + 1
              && p[..|a|] == a
              && p[|p| - |b|..] == b
              && (a != "" ==> p[|p| - |b| - 1] == '/')
              && ((a == "" || a[|a| - 1] == '/') ==> |p| == |a| + |b|)
              && (a != "" && a[|a| - 1] != '/' ==> |p| == |a| + |b| + 1)
  {
    if |b| > 0 && b[0] == '/' then b
    else if a == "" || a[|a| - 1] == '/' then a + b
    else a + "/" + b
  }

  /**
   * The output path: "qqbot.cfg" in the working directory when no directory is
   * given, otherwise a file of that name directly inside the directory.
   */
  function OutputPath(dir: Option<string>): (p: string)
    ensures dir.None? ==> p == FileName
    ensures |p| >= |FileName| && p[|p| - |FileName|..] == FileName
    ensures dir.Some? ==>
              && |dir.value| + |FileName| <= |p| <= |dir.value| + |FileName| + 1
              && p[..|dir.value|] == dir.value
              && (dir.value != "" ==> p[|p| - |FileName| - 1] == '/')
              && (dir.value == "" || dir.value[|dir.value| - 1] == '/' ==> |p| == |dir.value| + |FileName|)
              && (dir.value != "" && dir.value[|dir.value| - 1] != '/' ==> |p| == |dir.value| + |FileName| + 1)
  {
    match dir
    case None => FileName
    case Some(d) => Join(d, FileName)
  }

  /** The default options, section by section. */
  function DefaultStore(): Store {
    Store(map["chat_enabled" := "True", "share_enabled" := "False", "remember_enabled" := "True"],
          map["PERSONAL" := map["account" := "*", "password" := "*"],
              "CHATBOT" := map["bot_name" := "mtdhb", "need_train" := "False", "train_data" := "*"]])
  }

  /** The eight (section, option, value) triples the generated file holds. */
  const DefaultTriples: set<(string, string, string)> :=
    {("DEFAULT", "chat_enabled", "True"), ("DEFAULT", "share_enabled", "False"),
     ("DEFAULT", "remember_enabled", "True"),
     ("PERSONAL", "account", "*"), ("PERSONAL", "password", "*"),
     ("CHATBOT", "bot_name", "mtdhb"), ("CHATBOT", "need_train", "False"),
     ("CHATBOT", "train_data", "*")}

  /** The flat dictionary the application reads back from the default file. */
  const DefaultValues: map<string, string> :=
    map["chat_enabled" := "True", "share_enabled" := "False", "remember_enabled" := "True",
        "account" := "*", "password" := "*",
        "bot_name" := "mtdhb", "need_train" := "False", "train_data" := "*"]

  /**
   * The default store has the sections DEFAULT, PERSONAL and CHATBOT and holds
   * exactly the eight default triples.
   */
  lemma DefaultStoreContents()
    ensures WellFormed(DefaultStore())
    ensures DefaultStore().sections.Keys == {"PERSONAL", "CHATBOT"}
    ensures Triples(DefaultStore()) == DefaultTriples
  {
    var st := DefaultStore();
    forall t | t in Triples(st) ensures t in DefaultTriples {
      if t.0 == DefaultSection {
        assert t.1 in st.defaults;
      } else {
        assert t.0 in st.sections;
      }
    }
    forall t | t in DefaultTriples ensures t in Triples(st) {
      if t.0 == DefaultSection {
        assert t.1 in st.defaults;
      } else {
        assert t.1 in st.sections[t.0];
      }
    }
  }

  /** Reading the DEFAULT list of the schema from the default store. */
  lemma ReadDefaultSection()
    ensures WalkKeys(DefaultStore(), "DEFAULT", ["chat_enabled", "share_enabled", "remember_enabled"], map[])
            == Ok(DefaultStore().defaults)
  {
  }

  /** Reading the PERSONAL list of the schema from the default store. */
  lemma ReadPersonalSection()
    ensures WalkKeys(DefaultStore(), "PERSONAL", ["account", "password"], DefaultStore().defaults)
            == Ok(DefaultStore().defaults + DefaultStore().sections["PERSONAL"])
  {
  }

  /** Reading the CHATBOT list of the schema from the default store. */
  lemma ReadChatbotSection()
    ensures WalkKeys(DefaultStore(), "CHATBOT", ["bot_name", "need_train", "train_data"],
                     DefaultStore().defaults + DefaultStore().sections["PERSONAL"])
            == Ok(DefaultValues)
  {
  }

  /**
   * Reading the default store with the application's schema gives back the
   * eight default values.
   */
  lemma DefaultRoundTrip(path: string)
    ensures ReadConfig(true, path, DefaultStore(), QqbotSchema()) == Ok(DefaultValues)
  {
    var st := DefaultStore();
    var entries := QqbotSchema().entries;
    ReadDefaultSection();
    ReadPersonalSection();
    ReadChatbotSection();
    assert entries[1..][1..][1..] == [];
  }

  /** The first block of `set` calls fills the DEFAULT options of a fresh store. */
  lemma DefaultBlock()
    ensures var s1 := StoreSet(Store(map[], map[]), DefaultSection, "chat_enabled", "True");
            var s2 := StoreSet(s1.1, DefaultSection, "share_enabled", "False");
            var s3 := StoreSet(s2.1, DefaultSection, "remember_enabled", "True");
            && s1.0 == None && s2.0 == None && s3.0 == None
            && s3.1 == Store(DefaultStore().defaults, map[])
  {
  }

  /** The second block adds the PERSONAL section and fills it. */
  lemma PersonalBlock()
    ensures var s4 := StoreAddSection(Store(DefaultStore().defaults, map[]), "PERSONAL");
            var s5 := StoreSet(s4.1, "PERSONAL", "account", "*");
            var s6 := StoreSet(s5.1, "PERSONAL", "password", "*");
            && s4.0 == None && s5.0 == None && s6.0 == None
            && s6.1 == Store(DefaultStore().defaults, map["PERSONAL" := DefaultStore().sections["PERSONAL"]])
  {
  }

  /** The third block adds the CHATBOT section and fills it, completing the default store. */
  lemma ChatbotBlock()
    ensures var s7 := StoreAddSection(Store(DefaultStore().defaults, map["PERSONAL" := DefaultStore().sections["PERSONAL"]]), "CHATBOT");
            var s8 := StoreSet(s7.1, "CHATBOT", "bot_name", "mtdhb");
            var s9 := StoreSet(s8.1, "CHATBOT", "need_train", "False");
            var s10 := StoreSet(s9.1, "CHATBOT", "train_data", "*");
            && s7.0 == None && s8.0 == None && s9.0 == None && s10.0 == None
            && s10.1 == DefaultStore()
  {
  }

  /**
   * `generate_qqbot_config(path)`: a fresh parser filled by the fixed sequence of
   * `set` and `add_section` calls, none of which fails, and the path it would be
   * written to.
   */
  method GenerateQqbotConfig(dir: Option<string>) returns (configPath: string, cp: ConfigParser)
    ensures fresh(cp) && cp.Valid()
    ensures cp.Contents() == DefaultStore()
    ensures configPath == OutputPath(dir)
  {
    cp := new ConfigParser();
    var err: Option<LibError>;

    DefaultBlock();
    err := cp.Set("DEFAULT", "chat_enabled", "True");
    assert err.None?;
    err := cp.Set("DEFAULT", "share_enabled", "False");
    assert err.None?;
    err := cp.Set("DEFAULT", "remember_enabled", "True");
    assert err.None?;

    PersonalBlock();
    err := cp.AddSection("PERSONAL");
    assert err.None?;
    err := cp.Set("PERSONAL", "account", "*");
    assert err.None?;
    err := cp.Set("PERSONAL", "password", "*");
    assert err.None?;

    ChatbotBlock();
    err := cp.AddSection("CHATBOT");
    assert err.None?;
    err := cp.Set("CHATBOT", "bot_name", "mtdhb");
    assert err.None?;
    err := cp.Set("CHATBOT", "need_train", "False");
    assert err.None?;
    err := cp.Set("CHATBOT", "train_data", "*");
    assert err.None?;

    if dir.None? {
      configPath := FileName;
    } else {
      configPath := Join(dir.value, FileName);
    }
  }

  /**
   * Generating the default configuration and reading it back with
   * `get_qqbot_config` gives the eight default values, wherever it is written.
   * The generated store is handed to the reader directly: this assumes that
   * writing the file and parsing it again give back the same store.
   */
  method GenerateThenRead(dir: Option<string>) returns (r: ReadResult)
    ensures r == Ok(DefaultValues)
  {
    var configPath, cp := GenerateQqbotConfig(dir);
    r := GetQqbotConfig(true, configPath, cp.Contents());
    DefaultRoundTrip(configPath);
  }
}
