# qqbot configuration utilities, modelled in Dafny

This project models `qqbot/utils.py` of the mtdhb QQ chat-bot: the small layer
that reads the bot's INI configuration file into one flat dictionary and writes
a default configuration file.

- **Reading** (`_get_config`). The function checks that the file exists. It
  checks that the schema is a dictionary. It then walks the schema's
  (section, value) items in order: a list value asks for each listed option of
  that section, and a string value asks for one option. Every value found is
  written into one flat dictionary keyed by option name. The first failure ends
  the read with an error, so no partial dictionary is ever returned.
  `get_qqbot_config` runs this walk with the fixed three-section schema
  (DEFAULT, PERSONAL, CHATBOT).
- **Errors**. The four error classes (`ConfigNotFoundError`,
  `ConfigParamTypeError`, `NoOptionError`, `NoSectionError`) become the cases
  of the `ConfigError` datatype in `config_errors.dfy`. Each case carries the
  attributes its Python constructor stores, in the constructor's parameter
  order. A fifth case, `LibraryError`, holds the store library's own
  exceptions. Besides interpolation errors (see "## Left out"), these escape
  untranslated from the single-string branch.
- **Writing** (`generate_qqbot_config`). The function fills a fresh parser
  with eight default values through a fixed sequence of `set` and
  `add_section` calls. It then chooses `qqbot.cfg` either in the working
  directory or inside the given directory.

Files:

- `config_store.dfy`: the INI store the code relies on (Python's
  `configparser`). It has a lookup with its two failures, pure `set` and
  `add_section`, and a `ConfigParser` class that those methods update in place.
- `schemas.dfy`: the schema as a run-time-typed Python value. It also defines
  the option names a schema asks for, and which section's value wins for each
  name.
- `config_errors.dfy`: the error taxonomy.
- `config_reader.dfy`: `_get_config`, once as specification functions and once
  as the nested-loop method `GetConfig`, which is proved equal to them. The
  functions are `ReadConfig` (qqbot/utils.py:80-111), `Walk`, the loop over
  the schema's items (qqbot/utils.py:94-106), and `WalkKeys`, the list branch
  (qqbot/utils.py:96-102). It also holds the properties of the walk and
  `get_qqbot_config`.
- `config_writer.dfy`: the default store `DefaultStore` (qqbot/utils.py:132-148), the output path, the generator
  method, and the round trip from the generated store back through
  `get_qqbot_config`.

The store's lookup follows `configparser`. A section's own options come first,
then the options of the special DEFAULT section, which every section inherits.
DEFAULT itself always exists and cannot be added with `add_section`. Only a
missing ordinary section gives "no section". Because of this inheritance, an
option missing from PERSONAL or CHATBOT is still found when DEFAULT has it.
The generator relies on the same rule: it sets DEFAULT options without adding
that section first.

Three behaviours a caller might not expect are kept as the code has them:

- `NoOptionError(key, item)` passes the section name where the constructor
  expects the option, and the option name where it expects the section. So
  the error's `option` holds the section name and its `section` holds the
  missing option's name (`ReadStopsAtMissingOption`).
- The string branch has no `try`. A failed lookup there surfaces as the
  library's own `NoSectionError` or `NoOptionError`, not as the module's
  classes (`ReadSingleEscapes`).
- A schema that is not a dictionary is reported with the class `dict` itself
  as the expected type (`DictClass`), not with a text (`ReadNotDict`).

The docstring of `get_qqbot_config` (qqbot/utils.py:118-120) says PERSONAL and
CHATBOT are read "if present". The code does not do that: every entry of its
schema is a list, so a missing PERSONAL or CHATBOT section fails the whole read.
Once the DEFAULT options are found, a missing PERSONAL section gives
`NoSectionError("PERSONAL")` (`GetQqbotConfigNeedsSections`). The model follows
the code.

## Model

| member | source | states |
|---|---|---|
| ConfigStore.Get | qqbot/utils.py:98 | `cp.get(section, option)`: "no section" exactly when an ordinary section other than DEFAULT is missing; "no option" exactly when neither the section nor DEFAULT has the option; otherwise the section's own value, falling back to DEFAULT's |
| ConfigStore.StoreAddSection | qqbot/utils.py:140 | `add_section`: refuses DEFAULT and an existing section and leaves the store unchanged; otherwise adds exactly one empty section and keeps every other section and the DEFAULT options |
| ConfigStore.StoreSet | qqbot/utils.py:135-148 | `set`: succeeds exactly for DEFAULT or an existing section, otherwise fails with the library's NoSectionError and leaves the store unchanged; after a success the option reads back as the value set, no section is added, and every lookup of another option is unchanged; a set on DEFAULT changes only the DEFAULT options and leaves every ordinary section's own options as they were, and a set on an ordinary section changes only that section's one option and leaves the DEFAULT options and every other section as they were |
| ConfigStore.ConfigParser.constructor | qqbot/utils.py:132 | a fresh parser holds an empty store |
| ConfigStore.ConfigParser.AddSection | qqbot/utils.py:140 | updates the parser's own store in place exactly as `StoreAddSection` says, and returns its failure |
| ConfigStore.ConfigParser.Set | qqbot/utils.py:135-148 | updates the parser's own store in place exactly as `StoreSet` says, and returns its failure |
| Schemas.OwnerIsLastNaming | qqbot/utils.py:94-104 | when several entries name the same option, the flat result takes the section of the last entry that names it |
| ConfigReader.ReadSucceeds | qqbot/utils.py:87-111 | a read succeeds if and only if the path exists, the schema is a dictionary and every entry is a list or a string whose names are all found; the result's keys are then exactly the names asked for, each mapped to the store's text for the last section naming it |
| ConfigReader.ReadMissingPath | qqbot/utils.py:109-110 | a missing path gives `ConfigNotFoundError(path)` whatever the schema and the file contents |
| ConfigReader.ReadNotDict | qqbot/utils.py:107-108 | a schema that is not a dictionary gives `ConfigParamTypeError(schema, dict)` |
| ConfigReader.ReadStopsAtOtherEntry | qqbot/utils.py:105-106 | once every earlier entry resolves, an entry that is neither a list nor a string fails the whole read with `ConfigParamTypeError(value, 'str or list')`, dropping the values already collected |
| ConfigReader.ReadStopsAtMissingSection | qqbot/utils.py:97-100 | a list entry reached after resolved entries, whose section is missing, fails the read at its first key with `NoSectionError(section)` |
| ConfigReader.ReadStopsAtMissingOption | qqbot/utils.py:101-102 | the first missing key of an existing section fails the read with `NoOptionError(section, key)`: `option` holds the section name and `section` the key |
| ConfigReader.ReadSingleEscapes | qqbot/utils.py:103-104 | a failed lookup of a single-string entry fails the read with the library's own NoSectionError(section) or NoOptionError(option, section), not one of the module's errors |
| ConfigReader.WalkListsOnlyConfigErrors | qqbot/utils.py:95-102 | a schema made only of lists can fail only with `NoSectionError` or `NoOptionError` |
| ConfigReader.GetConfig | qqbot/utils.py:80-111 | the nested loops that fill the dictionary in place and return at the first failure compute exactly `ReadConfig` |
| ConfigReader.QqbotSchema | qqbot/utils.py:122-123 | the application schema is a dictionary of three distinct sections, each a list, asking for exactly the eight option names |
| ConfigReader.GetQqbotConfigNeedsSections | qqbot/utils.py:114-124 | a store without a PERSONAL or CHATBOT section makes `get_qqbot_config` fail, and once the DEFAULT options are found a missing PERSONAL gives `NoSectionError("PERSONAL")`, although the docstring reads those sections "if present" |
| ConfigReader.GetQqbotConfig | qqbot/utils.py:114-124 | reads with the application schema; can fail only with `ConfigNotFoundError`, `NoSectionError` or `NoOptionError`, and a success holds exactly the eight option names |
| ConfigWriter.Join | qqbot/utils.py:153 | `os.path.join(a, b)` for POSIX: an absolute `b` replaces `a`; otherwise the result is `a`, then `b`, with one `/` added exactly when `a` is not empty and does not already end in `/`, so a `/` stands right before `b` whenever `a` is not empty and the separator is never doubled |
| ConfigWriter.OutputPath | qqbot/utils.py:150-153 | the output path is `qqbot.cfg` when no directory is given; otherwise it starts with the directory and ends with `qqbot.cfg`, directly after a separator when the directory is not empty, adding a `/` only when the directory does not already end in one |
| ConfigWriter.DefaultStoreContents | qqbot/utils.py:134-148 | the default store has the ordinary sections PERSONAL and CHATBOT besides DEFAULT and holds exactly the eight default (section, option, value) triples |
| ConfigWriter.DefaultBlock | qqbot/utils.py:135-137 | the three DEFAULT `set` calls on a fresh parser all succeed and fill the DEFAULT options |
| ConfigWriter.PersonalBlock | qqbot/utils.py:140-142 | adding PERSONAL and its two `set` calls all succeed and fill that section |
| ConfigWriter.ChatbotBlock | qqbot/utils.py:145-148 | adding CHATBOT and its three `set` calls all succeed and complete the default store |
| ConfigWriter.DefaultRoundTrip | qqbot/utils.py:122-148 | reading the default store with the application schema gives exactly the eight default values |
| ConfigWriter.GenerateQqbotConfig | qqbot/utils.py:127-153 | returns a fresh parser holding exactly the default store, and the output path chosen from the directory argument; that none of its `set` or `add_section` calls fails is established by the asserts in its body and the lemmas `DefaultBlock`, `PersonalBlock` and `ChatbotBlock` |
| ConfigWriter.GenerateThenRead | qqbot/utils.py:127-156 | generating the default configuration and reading it back with `get_qqbot_config` gives the eight default values |

## Left out

- File reading (`cp.read(path)`, line 92) and INI parsing are not modelled. The read takes the already-parsed store as input. Parse errors raised by the library while reading are therefore not represented.
- File writing (`open` and `cp.write`, lines 155-156) is not modelled. This covers the textual INI format, the order of sections in the written file, and the failure when the directory does not exist. The generator returns the filled parser and the chosen path instead.
- `os.path.exists` is an input boolean.
- `os.path.join` is modelled for POSIX only. The Windows separator is not modelled.
- `configparser`'s lower-casing of option names and its treatment of an empty section name as DEFAULT in `set` are not modelled. The model's lookup is case-sensitive, whereas `cp.get` lower-cases the name it looks up, so a schema item `Account` finds the file's `account` in the program. Every name the application schema uses is already lower case. ReadSucceeds, ReadStopsAtMissingOption and ReadSingleEscapes hold as stated only for schemas whose option names are lower case.
- Value interpolation is not modelled: the lookup returns a value exactly as it is stored. In the program, `cp.get` (lines 98 and 104) applies configparser's basic interpolation. `%%` reads as `%`, and `%(name)s` is replaced by another option's value. A lone `%`, a reference to a missing option or too deep a nesting raises an interpolation error. That error is neither NoSectionError nor NoOptionError, so it escapes every branch of `_get_config`, list entries included. The default values contain no `%`, so the generator is not affected.
- ReadSucceeds: the values it states, and its "succeeds if and only if", hold only for files whose values contain no `%`, because interpolation is not modelled.
- GetQqbotConfig: its bound of three possible errors holds only for files whose values contain no `%`. Otherwise an interpolation error can also escape.
- Error messages are not modelled: the `Error` base class, `message`, `args`, `__repr__`/`__str__` and their Chinese texts. Errors are modelled by their carried fields only.
- List items and section names are strings in the model, so the string-typed fields cannot carry a non-string name. In Python, a non-string section name in a list entry misses in the library and becomes the module's `NoSectionError`. A non-string list item of an existing section (or of DEFAULT) fails with an `AttributeError` when the library lower-cases option names.
- The schema's dictionary is a sequence of items. The uniqueness of section names, which a Python dictionary guarantees, is not imposed on it. The walk does not depend on it, and `QqbotSchema` is proved to satisfy it.
