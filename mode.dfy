/** The process-wide run mode (mode.go): a numeric code and the name it was set by. */
module Mode {
  import opened Lang

  const DebugMode: string := "debug"
  const ReleaseMode: string := "release"
  const TestMode: string := "test"

  const DebugCode: int := 0
  const ReleaseCode: int := 1
  const TestCode: int := 2

  /** The code `SetMode` assigns for a mode name, and none for a name it refuses;
      the empty name means debug. */
  function CodeOf(value: string): (r: Option<int>)
  {
    if value == DebugMode || value == "" then Some(DebugCode)
    else if value == ReleaseMode then Some(ReleaseCode)
    else if value == TestMode then Some(TestCode)
    else None
  }

  /** The name `Mode` reports after a successful `SetMode(value)`. */
  function NameOf(value: string): (r: string)
  {
    if value == "" then DebugMode else value
  }

  /** Exactly the three mode names and the empty string are accepted; the
      reported name is never empty and maps back to the same code. */
  lemma CodeOfSpec(value: string)
    ensures CodeOf(value).Some? <==> value in {"", DebugMode, ReleaseMode, TestMode}
    ensures CodeOf(value).Some? ==> NameOf(value) != "" && CodeOf(NameOf(value)) == CodeOf(value)
    ensures CodeOf(value).Some? ==> NameOf(NameOf(value)) == NameOf(value)
  {
  }

  function UnknownModeMessage(value: string): string {
    "jin mode unknown: " + value
  }

  /** The package variables `jinMode` and `modeName`. */
  class ModeState {
    var jinMode: int
    var modeName: string

    /** The code and the name agree: one of the three modes. */
    ghost predicate Valid()
      reads this
    {
      modeName != "" && CodeOf(modeName) == Some(jinMode)
    }

    /** Before `init` runs, the mode is debug. */
    constructor ()
      ensures Valid() && jinMode == DebugCode && modeName == DebugMode
    {
      jinMode, modeName := DebugCode, DebugMode;
    }

    /** `SetMode` switches to the named mode ("" meaning debug), and panics on
        any other name without changing anything. */
    method SetMode(value: string) returns (r: Outcome<()>)
      modifies this
      ensures r.Ok? <==> CodeOf(value).Some?
      ensures r.Ok? ==> jinMode == CodeOf(value).value && modeName == NameOf(value)
      ensures r.Panic? ==> r.message == UnknownModeMessage(value) &&
                           jinMode == old(jinMode) && modeName == old(modeName)
      ensures old(Valid()) || r.Ok? ==> Valid()
    {
      if value == DebugMode || value == "" {
        jinMode := DebugCode;
      } else if value == ReleaseMode {
        jinMode := ReleaseCode;
      } else if value == TestMode {
        jinMode := TestCode;
      } else {
        return Panic(UnknownModeMessage(value));
      }
      var name := value;
      if name == "" {
        name := DebugMode;
      }
      modeName := name;
      r := Ok(());
    }

    /** `Mode` reports the current name, which is never empty. */
    function Mode(): (r: string)
      reads this
      ensures Valid() ==> r != "" && r in {DebugMode, ReleaseMode, TestMode}
      ensures Valid() ==> CodeOf(r) == Some(jinMode)
    {
      modeName
    }
  }
}
