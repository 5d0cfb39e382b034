/** The values a settings key can hold, compared by value as QVariant does. */
module SettingsValues {

  /** A missing value: what an invalid QVariant stands for. */
  datatype Option<+T> = None | Some(value: T)

  /** The value shapes the settings panel binds: a boolean property
      (a check box, or its complement), a string property (a line edit's
      text) and a string-list property. */
  datatype Value =
    | Bool(b: bool)
    | Text(s: string)
    | TextList(items: seq<string>)
}
