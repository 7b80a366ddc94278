/** Messages (com.excelsiorjet.Messages and its older copy
    com.excelsior.common.Messages): strings looked up by id in a
    Strings.properties bundle, trimmed and stripped of one pair of
    enclosing single quotes; and Txt.s (com.excelsior.jet.Txt), which falls
    back to the id itself when the bundle lacks it. */
module Messages {
  import opened Wrappers
  import opened JavaLang
  import opened Logging

  /** A resource bundle: id to stored value. */
  type Bundle = map<string, string>

  /** A message as returned by `format`: the processed string itself, or
      MessageFormat applied to it with the given parameters (whose text is
      not modelled). */
  datatype Text = Plain(s: string) | Formatted(pattern: string, params: seq<string>)

  /** The value starts and ends with a single quote. */
  predicate Quoted(s: string) {
    |s| >= 2 && s[0] == '\'' && s[|s| - 1] == '\''
  }

  /** getStringIfExists: None for a missing id; otherwise the trimmed
      value, without its enclosing quotes when it has a pair. */
  function GetStringIfExists(bundle: Bundle, id: string): (r: Option<string>)
    ensures r.None? <==> id !in bundle
    ensures r.Some? ==>
      var v := Trim(bundle[id]);
      if Quoted(v) then v == "'" + r.value + "'" else r.value == v
  {
    if id !in bundle then None
    else
      var s := Trim(bundle[id]);
      if Quoted(s) then
        assert s == "'" + s[1..|s| - 1] + "'";
        Some(s[1..|s| - 1])
      else Some(s)
  }

  /** format(id, params): the looked-up string, formatted only when there
      are parameters. */
  function Format(bundle: Bundle, id: string, params: seq<string>): (r: Option<Text>)
    ensures r.None? <==> id !in bundle
    ensures r.Some? && params == [] ==> r.value.Plain? && Some(r.value.s) == GetStringIfExists(bundle, id)
    ensures r.Some? && params != [] ==> r.value == Formatted(GetStringIfExists(bundle, id).value, params)
  {
    match GetStringIfExists(bundle, id)
    case None => None
    case Some(s) => if |params| > 0 then Some(Formatted(s, params)) else Some(Plain(s))
  }

  /** A value stored with surrounding blanks and one pair of quotes comes
      back as what was quoted, whatever it holds. */
  lemma QuotedRoundTrip(bundle: Bundle, id: string, x: string, pad: string)
    requires forall k :: 0 <= k < |pad| ==> IsTrimmed(pad[k])
    requires id in bundle && bundle[id] == pad + "'" + x + "'" + pad
    ensures GetStringIfExists(bundle, id) == Some(x)
  {
    var q := "'" + x + "'";
    assert bundle[id] == pad + q + pad;
    TrimPadded(pad, q);
    assert q[1..|q| - 1] == x;
  }

  /** A plain value that needs no trimming and carries no enclosing quote
      pair comes back unchanged. */
  lemma PlainRoundTrip(bundle: Bundle, id: string, x: string)
    requires x == [] || (!IsTrimmed(x[0]) && !IsTrimmed(x[|x| - 1]))
    requires !Quoted(x)
    requires id in bundle && bundle[id] == x
    ensures GetStringIfExists(bundle, id) == Some(x)
  {
    TrimFixed(x);
  }

  /** Only one pair of quotes is removed: a doubly quoted value keeps its
      inner pair. */
  lemma OnePairOnly(bundle: Bundle, id: string, x: string)
    requires id in bundle && bundle[id] == "''" + x + "''"
    ensures GetStringIfExists(bundle, id) == Some("'" + x + "'")
  {
    var v := "''" + x + "''";
    TrimFixed(v);
    assert v[1..|v| - 1] == "'" + x + "'";
  }

  /** Trim removes blank padding on both sides of a value whose ends are
      not blank. */
  lemma TrimPadded(pad: string, q: string)
    requires forall k :: 0 <= k < |pad| ==> IsTrimmed(pad[k])
    requires |q| > 0 && !IsTrimmed(q[0]) && !IsTrimmed(q[|q| - 1])
    ensures Trim(pad + q + pad) == q
  {
    TrimLeadingPad(pad, q + pad);
    assert pad + q + pad == pad + (q + pad);
    TrimTrailingPad(q, pad);
  }

  lemma {:induction false} TrimLeadingPad(pad: string, s: string)
    requires forall k :: 0 <= k < |pad| ==> IsTrimmed(pad[k])
    requires |s| > 0 && !IsTrimmed(s[0])
    ensures TrimLeading(pad + s) == s
    decreases |pad|
  {
    if |pad| > 0 {
      assert (pad + s)[1..] == pad[1..] + s;
      TrimLeadingPad(pad[1..], s);
    }
  }

  lemma {:induction false} TrimTrailingPad(s: string, pad: string)
    requires forall k :: 0 <= k < |pad| ==> IsTrimmed(pad[k])
    requires |s| > 0 && !IsTrimmed(s[|s| - 1])
    ensures TrimTrailing(s + pad) == s
    decreases |pad|
  {
    if |pad| > 0 {
      assert (s + pad)[..|s + pad| - 1] == s + pad[..|pad| - 1];
      TrimTrailingPad(s, pad[..|pad| - 1]);
    }
  }

  /** The IllegalStateException Txt.s throws when it has nowhere to report
      a missing id. */
  datatype IllegalState = IllegalState(message: string)

  /** Txt.s: the message when the bundle has it; otherwise, with a log, an
      error is logged and the id itself is returned; without one, the call
      fails. The result, when there is one, is never null. */
  method S(bundle: Bundle, log: Log?, id: string, params: seq<string>) returns (r: Result<Text, IllegalState>)
    modifies log
    ensures id in bundle ==> r == Success(Format(bundle, id, params).value)
    ensures id in bundle && log != null ==> log.entries == old(log.entries)
    ensures id !in bundle && log != null ==>
      r == Success(Plain(id)) &&
      log.entries == old(log.entries) + [Entry(Level.Error, "JET message file broken: key = " + id)]
    ensures id !in bundle && log == null ==>
      r == Failure(IllegalState("No log to issue error. JET message file broken: key = " + id))
  {
    var str := Format(bundle, id, params);
    if str.Some? {
      return Success(str.value);
    }
    if log != null {
      log.Error("JET message file broken: key = " + id);
    } else {
      return Failure(IllegalState("No log to issue error. JET message file broken: key = " + id));
    }
    return Success(Plain(id));
  }
}
