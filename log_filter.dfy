/** LogFilter: three switches that decide which severities reach the log.
    The Java class keeps them in static fields; here one object holds them. */
module Logging {
  import opened Common

  /** EventSeverity; every constant besides the three filtered ones is Other. */
  datatype Severity = Info | Warning | Error | Other

  class LogFilter {
    var infoEnabled: bool
    var warningEnabled: bool
    var errorEnabled: bool

    /** Of INFO, WARNING and ERROR, only ERROR is let through until a switch is changed. */
    constructor ()
      ensures !infoEnabled && !warningEnabled && errorEnabled
      ensures Allows(Some(Error)) && !Allows(Some(Info)) && !Allows(Some(Warning))
    {
      infoEnabled, warningEnabled, errorEnabled := false, false, true;
    }

    /** allows(level); None is a null level, which is always let through. */
    function Allows(level: Option<Severity>): (r: bool)
      reads this
      ensures level == None || level == Some(Other) ==> r
      ensures level == Some(Info) ==> r == infoEnabled
      ensures level == Some(Warning) ==> r == warningEnabled
      ensures level == Some(Error) ==> r == errorEnabled
    {
      match level
      case None => true
      case Some(s) =>
        match s
        case Info => infoEnabled
        case Warning => warningEnabled
        case Error => errorEnabled
        case Other => true
    }

    function IsInfoEnabled(): bool reads this { infoEnabled }
    function IsWarningEnabled(): bool reads this { warningEnabled }
    function IsErrorEnabled(): bool reads this { errorEnabled }

    method SetInfoEnabled(enabled: bool)
      modifies this
      ensures IsInfoEnabled() == enabled && Allows(Some(Info)) == enabled
      ensures warningEnabled == old(warningEnabled) && errorEnabled == old(errorEnabled)
      ensures forall s: Severity :: s != Info ==> Allows(Some(s)) == old(Allows(Some(s)))
    {
      infoEnabled := enabled;
    }

    method SetWarningEnabled(enabled: bool)
      modifies this
      ensures IsWarningEnabled() == enabled && Allows(Some(Warning)) == enabled
      ensures infoEnabled == old(infoEnabled) && errorEnabled == old(errorEnabled)
      ensures forall s: Severity :: s != Warning ==> Allows(Some(s)) == old(Allows(Some(s)))
    {
      warningEnabled := enabled;
    }

    method SetErrorEnabled(enabled: bool)
      modifies this
      ensures IsErrorEnabled() == enabled && Allows(Some(Error)) == enabled
      ensures infoEnabled == old(infoEnabled) && warningEnabled == old(warningEnabled)
      ensures forall s: Severity :: s != Error ==> Allows(Some(s)) == old(Allows(Some(s)))
    {
      errorEnabled := enabled;
    }
  }
}
