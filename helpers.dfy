/**
 * Readers for request parameters: the `:id` path parameter and query-string
 * values as strings, comma-separated lists and integers, each with its
 * default and error rules.
 */
module Helpers {
  import opened Wrappers
  import opened Strconv
  import Strings
  import opened Validation

  /** `url.Values`: every key maps to the list of its values. */
  type Query = map<string, seq<string>>

  /** `qs.Get(key)`: the first value for `key`, or "" when there is none. */
  function QueryGet(qs: Query, key: string): (s: string)
    ensures key !in qs || qs[key] == [] ==> s == ""
    ensures key in qs && qs[key] != [] ==> s == qs[key][0]
  {
    if key in qs && qs[key] != [] then qs[key][0] else ""
  }

  const InvalidIDParameter := "invalid id parameter"

  /**
   * `readIDParam`: the id when the parameter is a base-10 int64 of at
   * least 1, otherwise the "invalid id parameter" error.
   */
  function ReadIDParam(param: string): (r: Result<Int64, string>)
    ensures r.Ok? <==> ParseInt(param, Bits64).Some? && ParseInt(param, Bits64).value >= 1
    ensures r.Ok? ==> r.value as int == ParseInt(param, Bits64).value && r.value >= 1
    ensures r.Err? ==> r.error == InvalidIDParameter
  {
    match ParseInt(param, Bits64)
    case None => Err(InvalidIDParameter)
    case Some(id) => if id < 1 then Err(InvalidIDParameter) else Ok(id)
  }

  /** Every positive id, written in decimal, reads back as itself. */
  lemma ReadIDParamFormat(id: Int64)
    requires id >= 1
    ensures ReadIDParam(FormatInt(id)) == Ok(id)
  {
    ParseFormat(id, Bits64);
  }

  /** `readString`: the query value, or the default when it is missing or empty. */
  function ReadString(qs: Query, key: string, defaultValue: string): (s: string)
    ensures QueryGet(qs, key) == "" ==> s == defaultValue
    ensures QueryGet(qs, key) != "" ==> s == QueryGet(qs, key)
    ensures s == "" ==> defaultValue == ""
  {
    var s := QueryGet(qs, key);
    if s == "" then defaultValue else s
  }

  /**
   * `readCSV`: the default for a missing or empty value; otherwise the value
   * split at every comma, which gives one more part than there are commas,
   * no part holding a comma, and the original text when joined with commas.
   */
  function ReadCSV(qs: Query, key: string, defaultValue: seq<string>): (r: seq<string>)
    ensures QueryGet(qs, key) == "" ==> r == defaultValue
    ensures QueryGet(qs, key) != "" ==>
      && |r| == Strings.Count(QueryGet(qs, key), ',') + 1
      && (forall i :: 0 <= i < |r| ==> ',' !in r[i])
      && Strings.Join(r, ',') == QueryGet(qs, key)
  {
    var csv := QueryGet(qs, key);
    if csv == "" then defaultValue
    else
      Strings.JoinSplit(csv, ',');
      Strings.Split(csv, ',')
  }

  /** Joining a non-empty list of comma-free parts and reading it back gives the parts. */
  lemma ReadCSVJoin(qs: Query, key: string, defaultValue: seq<string>, parts: seq<string>)
    requires |parts| >= 1 && (forall i :: 0 <= i < |parts| ==> ',' !in parts[i])
    requires Strings.Join(parts, ',') != ""
    ensures ReadCSV(qs[key := [Strings.Join(parts, ',')]], key, defaultValue) == parts
  {
    Strings.SplitJoin(parts, ',');
  }

  const NotAnInteger := "must be an integer value"

  /**
   * `readInt`: the default, with the validator untouched, for a missing or
   * empty value; the default and a "must be an integer value" error under
   * `key` (unless `key` already has one) for a value `strconv.Atoi`
   * rejects; otherwise the integer, with the validator untouched.
   */
  method ReadInt(qs: Query, key: string, defaultValue: Int64, v: Validator) returns (i: Int64)
    modifies v
    ensures QueryGet(qs, key) == "" ==> i == defaultValue && v.errors == old(v.errors)
    ensures QueryGet(qs, key) != "" && Atoi(QueryGet(qs, key)).None? ==>
      i == defaultValue && v.errors == Added(old(v.errors), key, NotAnInteger)
    ensures Atoi(QueryGet(qs, key)).Some? ==> i == Atoi(QueryGet(qs, key)).value && v.errors == old(v.errors)
  {
    var s := QueryGet(qs, key);
    if s == "" {
      return defaultValue;
    }
    var parsed := Atoi(s);
    if parsed.None? {
      v.AddError(key, NotAnInteger);
      return defaultValue;
    }
    return parsed.value;
  }

  /** Every int64 written in decimal is a value `readInt` accepts and returns. */
  lemma ReadIntFormat(qs: Query, key: string, n: Int64)
    ensures QueryGet(qs[key := [FormatInt(n)]], key) != ""
    ensures Atoi(QueryGet(qs[key := [FormatInt(n)]], key)) == Some(n)
  {
    ParseFormat(n, Bits64);
    assert |FormatInt(n)| >= 1;
  }
}
