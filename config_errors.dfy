/**
 * The configuration error classes of qqbot/utils.py. Each Python class becomes
 * one case, carrying the attributes its constructor stores; the case parameters
 * are in the order of the Python constructor's parameters. The failures the
 * store library raises itself and that the code lets through untranslated
 * form one more case.
 */
module ConfigErrors {
  import opened Schemas
  import ConfigStore

  /** The expected type a `ConfigParamTypeError` names: the class `dict`, or a text. */
  datatype ParamType = DictClass | TypeName(name: string)

  /** The offending value a `ConfigParamTypeError` carries. */
  datatype Param = SchemaValue(schema: Schema) | EntryValue(entry: Entry)

  datatype ConfigError =
    | ConfigNotFoundError(path: string)
    | ConfigParamTypeError(params: Param, paramType: ParamType)
    | NoOptionError(option: string, section: string)
    | NoSectionError(section: string)
    | LibraryError(cause: ConfigStore.LibError)

  /** One of the module's own error classes, as opposed to an escaped library exception. */
  predicate IsConfigError(e: ConfigError) {
    !e.LibraryError?
  }
}
