/**
 * A movie's running time in minutes, carried in JSON as the quoted text
 * `"<n> mins"`.
 */
module RuntimeJson {
  import opened Wrappers
  import opened Strconv
  import Strings

  datatype RuntimeError = InvalidRuntimeFormat

  /** The text inside the quotes: the number, a space, "mins". */
  function Text(r: Int32): string
  {
    FormatInt(r) + " mins"
  }

  lemma TextPrintable(r: Int32)
    ensures Printable(Text(r))
  {
    var digits := FormatNat(if r < 0 then -(r as int) else r as int);
    assert FormatInt(r) == (if r < 0 then ['-'] + digits else digits);
  }

  /** `Runtime.MarshalJSON`: never fails; the JSON string holds "<r> mins". */
  function MarshalJSON(r: Int32): (json: string)
    ensures Unquote(json) == Some(Text(r))
  {
    TextPrintable(r);
    Quote(Text(r))
  }

  /**
   * The decision `(*Runtime).UnmarshalJSON` makes: unquote, split on " ",
   * demand exactly two parts with "mins" second, and parse the first as a
   * base-10 int32. Every failure is `InvalidRuntimeFormat`.
   */
  function ParseRuntime(json: string): (r: Result<Int32, RuntimeError>)
    ensures Unquote(json).None? ==> r == Err(InvalidRuntimeFormat)
    ensures r.Ok? ==> exists n :: json == ['"'] + n + " mins" + ['"'] && ParseInt(n, Bits32) == Some(r.value as int)
  {
    match Unquote(json)
    case None => Err(InvalidRuntimeFormat)
    case Some(text) =>
      var parts := Strings.Split(text, ' ');
      if |parts| != 2 || parts[1] != "mins" then Err(InvalidRuntimeFormat)
      else
        match ParseInt(parts[0], Bits32)
        case None => Err(InvalidRuntimeFormat)
        case Some(i) =>
          assert text == parts[0] + " mins" by {
            Strings.JoinSplit(text, ' ');
            assert Strings.Join(parts, ' ') == parts[0] + [' '] + parts[1];
          }
          Ok(i)
  }

  /**
   * The converse of `ParseRuntime`'s contract: every quoted "<n> mins" whose
   * `n` is a base-10 int32 (leading zeros and a `+` sign included) is
   * accepted, with that value.
   */
  lemma ParseRuntimeAccepts(n: string)
    requires ParseInt(n, Bits32).Some?
    ensures ParseRuntime(['"'] + n + " mins" + ['"']) == Ok(ParseInt(n, Bits32).value as Int32)
  {
    var json := ['"'] + n + " mins" + ['"'];
    var text := n + " mins";
    assert ' ' !in n by {
      forall i | 0 <= i < |n| ensures n[i] != ' ' {
        assert IsDigit(n[i]) || n[i] == '+' || n[i] == '-';
      }
    }
    assert json[1..|json| - 1] == text;
    assert Unquote(json) == Some(text) by {
      forall i | 0 <= i < |text| ensures text[i] != '"' && text[i] != '\\' && text[i] != '\n' {
        if i < |n| {
          assert text[i] == n[i] && (IsDigit(n[i]) || n[i] == '+' || n[i] == '-');
        }
      }
    }
    assert text == Strings.Join([n, "mins"], ' ');
    Strings.SplitJoin([n, "mins"], ' ');
  }

  /** Every runtime survives a JSON round trip. */
  lemma RoundTrip(r: Int32)
    ensures ParseRuntime(MarshalJSON(r)) == Ok(r)
  {
    var n := FormatInt(r);
    assert MarshalJSON(r) == ['"'] + n + " mins" + ['"'];
    ParseFormat(r, Bits32);
    ParseRuntimeAccepts(n);
  }

  /** The receiver of `UnmarshalJSON`: a runtime field that decoding writes in place. */
  class Runtime {
    var minutes: Int32

    constructor (minutes: Int32)
      ensures this.minutes == minutes
    {
      this.minutes := minutes;
    }

    /**
     * `(*Runtime).UnmarshalJSON`: on well-formed input stores the parsed
     * value; on every error path leaves the receiver as it was.
     */
    method UnmarshalJSON(json: string) returns (err: Option<RuntimeError>)
      modifies this
      ensures err.None? <==> ParseRuntime(json).Ok?
      ensures err.None? ==> minutes == ParseRuntime(json).value
      ensures err.Some? ==> err.value == InvalidRuntimeFormat && minutes == old(minutes)
    {
      var unquoted := Unquote(json);
      if unquoted.None? {
        return Some(InvalidRuntimeFormat);
      }
      var parts := Strings.Split(unquoted.value, ' ');
      if |parts| != 2 || parts[1] != "mins" {
        return Some(InvalidRuntimeFormat);
      }
      var i := ParseInt(parts[0], Bits32);
      if i.None? {
        return Some(InvalidRuntimeFormat);
      }
      minutes := i.value;
      return None;
    }
  }
}
