/** `fit.ini.LoadOption`: the switches that steer `FitIni.buildIni`. The setters validate
    nothing; `loadFromFile` rejects a missing comment prefix or line option later. */
module IniOptions {
  import opened Wrappers

  /** `LoadOption.LineOption`: what to do with a line that is neither a header, a comment
      nor a key/value pair. */
  datatype LineOption = Keep | AsMultiLine | AsMultiLineCombined | ForceToComment | Drop

  /** The option fields as a value. */
  datatype Options = Options(
    ignoreFileIoError: bool,
    dropComment: bool,
    commentPrefix: JString,
    unknownLineOption: Option<LineOption>,
    trimKey: bool,
    trimValue: bool)

  /** `Ini.DEFAULT_COMMENT_PREFIX`. */
  const DEFAULT_COMMENT_PREFIX: string := ";"

  /** The field initialisers of a new `LoadOption`. */
  const Defaults := Options(false, false, Some(DEFAULT_COMMENT_PREFIX), None, true, true)

  class LoadOption {
    var ignoreFileIoError: bool
    var dropComment: bool
    var commentPrefix: JString
    var unknownLineOption: Option<LineOption>
    var trimKey: bool
    var trimValue: bool

    function Value(): Options
      reads this
    {
      Options(ignoreFileIoError, dropComment, commentPrefix, unknownLineOption, trimKey, trimValue)
    }

    constructor()
      ensures Value() == Defaults
    {
      ignoreFileIoError := false;
      dropComment := false;
      commentPrefix := Some(DEFAULT_COMMENT_PREFIX);
      unknownLineOption := None;
      trimKey := true;
      trimValue := true;
    }

    method SetIgnoreFileIoError(value: bool) returns (self: LoadOption)
      modifies this
      ensures self == this && Value() == old(Value()).(ignoreFileIoError := value)
    {
      ignoreFileIoError := value;
      return this;
    }

    method SetDropComment(value: bool) returns (self: LoadOption)
      modifies this
      ensures self == this && Value() == old(Value()).(dropComment := value)
    {
      dropComment := value;
      return this;
    }

    method SetCommentPrefix(value: JString) returns (self: LoadOption)
      modifies this
      ensures self == this && Value() == old(Value()).(commentPrefix := value)
    {
      commentPrefix := value;
      return this;
    }

    method SetUnknownLineOption(value: Option<LineOption>) returns (self: LoadOption)
      modifies this
      ensures self == this && Value() == old(Value()).(unknownLineOption := value)
    {
      unknownLineOption := value;
      return this;
    }

    method SetTrimKey(value: bool) returns (self: LoadOption)
      modifies this
      ensures self == this && Value() == old(Value()).(trimKey := value)
    {
      trimKey := value;
      return this;
    }

    method SetTrimValue(value: bool) returns (self: LoadOption)
      modifies this
      ensures self == this && Value() == old(Value()).(trimValue := value)
    {
      trimValue := value;
      return this;
    }
  }
}
