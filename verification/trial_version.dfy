/** TrialVersionConfig: the expiry of a trial build, as a number of days
    after the build or as a fixed date. */
module TrialVersion {
  import opened Wrappers
  import opened JavaLang

  datatype TrialVersionConfig = TrialVersionConfig(
    expireInDays: int,
    expireDate: Option<string>,
    expireMessage: Option<string>)
  {
    /** isEnabled: a day count of zero or more, or a date. */
    predicate IsEnabled() {
      expireInDays >= 0 || expireDate.Some?
    }

    /** getExpire: the day count in decimal when there is one, otherwise
        the date (null when there is none). */
    function GetExpire(): (r: Option<string>)
      ensures expireInDays >= 0 ==> r.Some? && (IsInt32(expireInDays) ==> ParseInt(r.value) == Some(expireInDays))
      ensures expireInDays < 0 ==> r == expireDate
      ensures IsEnabled() <==> r.Some?
    {
      if expireInDays >= 0 then
        var s := IntToString(expireInDays);
        assert IsInt32(expireInDays) ==> ParseInt(s) == Some(expireInDays) by {
          if IsInt32(expireInDays) {
            ParseIntIntToString(expireInDays);
          }
        }
        Some(s)
      else expireDate
    }
  }

  /** The parameter defaults. */
  const Default: TrialVersionConfig := TrialVersionConfig(-1, None, None)

  /** The defaults leave trial mode off, and a day count takes precedence
      over a date. */
  lemma DefaultDisabled(date: string, days: int)
    requires 0 <= days <= IntMax
    ensures !Default.IsEnabled() && Default.GetExpire() == None
    ensures Default.(expireDate := Some(date)).GetExpire() == Some(date)
    ensures ParseInt(Default.(expireInDays := days, expireDate := Some(date)).GetExpire().value) == Some(days)
  {
  }
}
