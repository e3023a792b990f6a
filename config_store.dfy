/**
 * The INI key/value store the configuration code is written against (Python's
 * `configparser.ConfigParser`), reduced to what qqbot/utils.py uses: looking up
 * an option of a section, adding a section and setting an option.
 *
 * Options of the special section "DEFAULT" are kept apart from the ordinary
 * sections: every section inherits them, "DEFAULT" itself exists without being
 * added, and it can never be added as an ordinary section.
 */
module ConfigStore {
  import opened Options

  /** The name of the section whose options every other section inherits. */
  const DefaultSection: string := "DEFAULT"

  /** The parsed contents of an INI file: the DEFAULT options and the ordinary sections. */
  datatype Store = Store(defaults: map<string, string>, sections: map<string, map<string, string>>)

  /** A store as the library builds it: "DEFAULT" is never an ordinary section. */
  predicate WellFormed(store: Store) {
    DefaultSection !in store.sections
  }

  /** The three outcomes of `get(section, option)`: a value, or one of the two failures. */
  datatype Lookup = Value(v: string) | NoSection | NoOption

  /** The library's own exceptions, carrying the fields the library gives them. */
  datatype LibError =
    | LibNoSectionError(section: string)
    | LibNoOptionError(option: string, section: string)
    | LibDuplicateSectionError(section: string)
    | LibInvalidSectionName(section: string)

  /**
   * `get(section, option)`: the section's own option first, then the inherited
   * DEFAULT option. Only a missing ordinary section is `NoSection`.
   */
  function Get(store: Store, section: string, option: string): (r: Lookup)
    ensures r == NoSection <==> section != DefaultSection && section !in store.sections
    ensures r.Value? && section in store.sections && option in store.sections[section] ==>
              r.v == store.sections[section][option]
    ensures r.Value? && (section !in store.sections || option !in store.sections[section]) ==>
              option in store.defaults && r.v == store.defaults[option]
    ensures r == NoOption <==>
              (section == DefaultSection || section in store.sections) &&
              (section !in store.sections || option !in store.sections[section]) &&
              option !in store.defaults
  {
    if section in store.sections then
      if option in store.sections[section] then Value(store.sections[section][option])
      else if option in store.defaults then Value(store.defaults[option])
      else NoOption
    else if section == DefaultSection then
      if option in store.defaults then Value(store.defaults[option]) else NoOption
    else NoSection
  }

  /** Every (section, option, value) triple a store holds, DEFAULT options under "DEFAULT". */
  function Triples(store: Store): set<(string, string, string)> {
    (set o | o in store.defaults :: (DefaultSection, o, store.defaults[o]))
    + (set s, o | s in store.sections && o in store.sections[s] :: (s, o, store.sections[s][o]))
  }

  /**
   * `add_section(section)` on a store: refuses the name "DEFAULT" and a section
   * that already exists; otherwise adds an empty section.
   */
  function StoreAddSection(store: Store, section: string): (r: (Option<LibError>, Store))
    ensures WellFormed(store) ==> WellFormed(r.1)
    ensures section == DefaultSection ==> r == (Some(LibInvalidSectionName(section)), store)
    ensures section != DefaultSection && section in store.sections ==>
              r == (Some(LibDuplicateSectionError(section)), store)
    ensures section != DefaultSection && section !in store.sections ==>
              && r.0 == None && r.1.defaults == store.defaults
              && r.1.sections.Keys == store.sections.Keys + {section}
              && r.1.sections[section] == map[]
              && (forall s :: s in store.sections ==> r.1.sections[s] == store.sections[s])
  {
    if section == DefaultSection then (Some(LibInvalidSectionName(section)), store)
    else if section in store.sections then (Some(LibDuplicateSectionError(section)), store)
    else (None, store.(sections := store.sections[section := map[]]))
  }

  /**
   * `set(section, option, value)` on a store: writes into the DEFAULT options or
   * into an existing ordinary section; a missing ordinary section is refused.
   * Afterwards the option reads back as the value it was set to.
   */
  function StoreSet(store: Store, section: string, option: string, value: string): (r: (Option<LibError>, Store))
    ensures WellFormed(store) ==> WellFormed(r.1)
    ensures r.0 == None <==> section == DefaultSection || section in store.sections
    ensures r.0 != None ==> r == (Some(LibNoSectionError(section)), store)
    ensures r.0 == None && WellFormed(store) ==> Get(r.1, section, option) == Value(value)
    ensures r.0 == None ==> r.1.sections.Keys == store.sections.Keys
    ensures r.0 == None && section != DefaultSection ==>
              forall s, o :: s != section || o != option ==> Get(r.1, s, o) == Get(store, s, o)
    ensures r.0 == None && section == DefaultSection ==>
              forall s, o :: o != option ==> Get(r.1, s, o) == Get(store, s, o)
    ensures r.0 == None && section == DefaultSection ==>
              r.1.sections == store.sections && option in r.1.defaults && r.1.defaults[option] == value
    ensures r.0 == None && section != DefaultSection ==>
              && r.1.defaults == store.defaults
              && option in r.1.sections[section] && r.1.sections[section][option] == value
              && (forall o :: o in store.sections[section] && o != option ==>
                    o in r.1.sections[section] && r.1.sections[section][o] == store.sections[section][o])
              && r.1.sections[section].Keys == store.sections[section].Keys + {option}
              && (forall s :: s in store.sections && s != section ==> r.1.sections[s] == store.sections[s])
  {
    if section == DefaultSection then (None, store.(defaults := store.defaults[option := value]))
    else if section in store.sections then
      (None, store.(sections := store.sections[section := store.sections[section][option := value]]))
    else (Some(LibNoSectionError(section)), store)
  }

  /** A parser object that is filled in place by `add_section` and `set`. */
  class ConfigParser {
    var defaults: map<string, string>
    var sections: map<string, map<string, string>>

    ghost predicate Valid()
      reads this
    {
      WellFormed(Contents())
    }

    /** The store the parser currently holds. */
    function Contents(): Store
      reads this
    {
      Store(defaults, sections)
    }

    /** `ConfigParser()`: an empty store. */
    constructor ()
      ensures Valid()
      ensures Contents() == Store(map[], map[])
    {
      defaults := map[];
      sections := map[];
    }

    /** `add_section(section)`, applied to the parser's own store. */
    method AddSection(section: string) returns (err: Option<LibError>)
      requires Valid()
      modifies this
      ensures Valid()
      ensures (err, Contents()) == StoreAddSection(old(Contents()), section)
    {
      if section == DefaultSection {
        return Some(LibInvalidSectionName(section));
      }
      if section in sections {
        return Some(LibDuplicateSectionError(section));
      }
      sections := sections[section := map[]];
      return None;
    }

    /** `set(section, option, value)`, applied to the parser's own store. */
    method Set(section: string, option: string, value: string) returns (err: Option<LibError>)
      requires Valid()
      modifies this
      ensures Valid()
      ensures (err, Contents()) == StoreSet(old(Contents()), section, option, value)
    {
      if section == DefaultSection {
        defaults := defaults[option := value];
        return None;
      }
      if section !in sections {
        return Some(LibNoSectionError(section));
      }
      sections := sections[section := sections[section][option := value]];
      return None;
    }
  }
}
