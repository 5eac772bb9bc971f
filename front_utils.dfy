/**
 * The front end's shared helpers: reading the page's cookies, capitalizing a
 * word, building a form's JSON body, and the message of an API error.
 * `decodeURIComponent`, `JSON.parse`, `toUpperCase` and `JSON.stringify` are
 * parameters.
 */
module FrontUtils {
  import opened Wrappers
  import opened Js

  type Cookies = map<string, string>

  // ---------------------------------------------------------------------------
  // getCookies / getCookie

  /**
   * The key and value a `key=value` piece contributes, both trimmed: none
   * unless both are non-empty once trimmed. Text after a second '=' is not
   * part of the value.
   */
  function Pair(piece: string): (r: Option<(string, string)>)
    ensures r.Some? ==> && r.value.0 != "" && r.value.1 != ""
                        && Trim(r.value.0) == r.value.0 && Trim(r.value.1) == r.value.1
  {
    var parts := Split(piece, '=');
    if |parts| >= 2 && Trim(parts[0]) != "" && Trim(parts[1]) != "" then
      TrimIdempotent(parts[0]);
      TrimIdempotent(parts[1]);
      Some((Trim(parts[0]), Trim(parts[1])))
    else None
  }

  /** A piece without '=' has no value and is skipped. */
  lemma PieceWithoutEqualsSkipped(piece: string)
    requires '=' !in piece
    ensures Pair(piece).None?
  {
    SplitWithoutSeparator(piece, '=');
  }

  /** One step of the reduction: a kept pair stores its decoded value, and decoding may throw. */
  function Step(acc: Cookies, piece: string, decode: string -> Completion<string>): Completion<Cookies>
  {
    match Pair(piece)
    case None => Normal(acc)
    case Some((key, value)) =>
      match decode(value)
      case Thrown(e) => Thrown(e)
      case Normal(decoded) => Normal(acc[key := decoded])
  }

  /** The reduction over the pieces, left to right, stopping at the first throw. */
  function CookiesOf(pieces: seq<string>, decode: string -> Completion<string>): (r: Completion<Cookies>)
    ensures r.Normal? ==> forall k :: k in r.value ==> k != "" && Trim(k) == k
    decreases |pieces|
  {
    if pieces == [] then Normal(map[])
    else
      match CookiesOf(pieces[..|pieces| - 1], decode)
      case Thrown(e) => Thrown(e)
      case Normal(acc) => Step(acc, pieces[|pieces| - 1], decode)
  }

  /** One more piece is one more step of the reduction, once the earlier pieces did not throw. */
  lemma CookiesOfStep(pieces: seq<string>, i: nat, decode: string -> Completion<string>, acc: Cookies)
    requires i < |pieces| && CookiesOf(pieces[..i], decode) == Normal(acc)
    ensures CookiesOf(pieces[..i + 1], decode) == Step(acc, pieces[i], decode)
  {
    assert pieces[..i + 1][..i] == pieces[..i];
  }

  /** Once a prefix of the pieces throws, the whole reduction throws the same error. */
  lemma {:induction false} ThrowPropagates(pieces: seq<string>, i: nat, decode: string -> Completion<string>)
    requires i <= |pieces| && CookiesOf(pieces[..i], decode).Thrown?
    ensures CookiesOf(pieces, decode) == CookiesOf(pieces[..i], decode)
    decreases |pieces| - i
  {
    if i < |pieces| {
      assert pieces[..i + 1][..i] == pieces[..i];
      ThrowPropagates(pieces, i + 1, decode);
    } else {
      assert pieces[..i] == pieces;
    }
  }

  /** `getCookies`: the cookie string split on ';' and reduced into an object. */
  method GetCookies(cookie: string, decode: string -> Completion<string>) returns (r: Completion<Cookies>)
    ensures r == CookiesOf(Split(cookie, ';'), decode)
  {
    var pieces := Split(cookie, ';');
    var acc: Cookies := map[];
    var i := 0;
    while i < |pieces|
      invariant 0 <= i <= |pieces|
      invariant CookiesOf(pieces[..i], decode) == Normal(acc)
    {
      var step := Step(acc, pieces[i], decode);
      CookiesOfStep(pieces, i, decode, acc);
      if step.Thrown? {
        ThrowPropagates(pieces, i + 1, decode);
        return Thrown(step.error);
      }
      acc := step.value;
      i := i + 1;
    }
    assert pieces[..|pieces|] == pieces;
    return Normal(acc);
  }

  /** A later piece with the same key overwrites the earlier value. */
  lemma LaterDuplicateWins(pieces: seq<string>, piece: string, decode: string -> Completion<string>,
                           acc: Cookies, key: string, value: string, decoded: string)
    requires CookiesOf(pieces, decode) == Normal(acc)
    requires Pair(piece) == Some((key, value)) && decode(value) == Normal(decoded)
    ensures CookiesOf(pieces + [piece], decode) == Normal(acc[key := decoded])
    ensures CookiesOf(pieces + [piece], decode).value[key] == decoded
  {
    assert (pieces + [piece])[..|pieces|] == pieces;
  }

  /** A piece that is not kept leaves every earlier value in place. */
  lemma DroppedPieceKeepsEarlier(pieces: seq<string>, piece: string, decode: string -> Completion<string>)
    requires Pair(piece).None?
    ensures CookiesOf(pieces + [piece], decode) == CookiesOf(pieces, decode)
  {
    assert (pieces + [piece])[..|pieces|] == pieces;
  }

  /** What follows a second '=' in a piece is dropped. */
  lemma SecondEqualsDropped(key: string, value: string, rest: string)
    requires '=' !in key && '=' !in value
    ensures Pair(key + "=" + value + "=" + rest) == Pair(key + "=" + value)
  {
    var long := key + "=" + value + "=" + rest;
    var short := key + "=" + value;
    assert long == key + ['='] + (value + ['='] + rest);
    assert short == key + ['='] + value;
    SplitAtFirst(key, value + ['='] + rest, '=');
    SplitAtFirst(value, rest, '=');
    SplitAtFirst(key, value, '=');
    SplitWithoutSeparator(value, '=');
    assert Split(long, '=')[..2] == [key, value];
    assert Split(short, '=') == [key, value];
    assert '=' in long && '=' in short by {
      assert long[|key|] == '=' && short[|key|] == '=';
    }
  }

  /**
   * `cookies[name] ? JSON.parse(cookies[name]) : undefined`, with None for
   * undefined: an absent or empty value is undefined, and parsing may throw.
   */
  function Lookup<V>(cookies: Cookies, name: string, parse: string -> Completion<V>): (r: Completion<Option<V>>)
    ensures name !in cookies || cookies[name] == "" ==> r == Normal(None)
    ensures r.Normal? && r.value.Some? ==> name in cookies && parse(cookies[name]) == Normal(r.value.value)
    ensures r.Thrown? ==> name in cookies && cookies[name] != "" && parse(cookies[name]) == Thrown(r.error)
  {
    if name in cookies && cookies[name] != "" then
      match parse(cookies[name])
      case Thrown(e) => Thrown(e)
      case Normal(v) => Normal(Some(v))
    else Normal(None)
  }

  /** `getCookie`: the named cookie's JSON value. */
  method GetCookie<V>(name: string, cookie: string, decode: string -> Completion<string>,
                      parse: string -> Completion<V>)
    returns (r: Completion<Option<V>>)
    ensures CookiesOf(Split(cookie, ';'), decode).Thrown? ==> r == Thrown(CookiesOf(Split(cookie, ';'), decode).error)
    ensures CookiesOf(Split(cookie, ';'), decode).Normal? ==> r == Lookup(CookiesOf(Split(cookie, ';'), decode).value, name, parse)
  {
    var cookies := GetCookies(cookie, decode);
    match cookies {
      case Thrown(e) => r := Thrown(e);
      case Normal(m) => r := Lookup(m, name, parse);
    }
  }

  // ---------------------------------------------------------------------------
  // capitalize

  /** `string.charAt(0).toUpperCase() + string.slice(1)`; `upper` is `toUpperCase`. */
  function Capitalize(s: string, upper: string -> string): (r: string)
    ensures s == "" ==> r == ""
    ensures s != "" ==> && |r| >= |s| - 1
                        && r[|r| - (|s| - 1)..] == s[1..]
                        && r[..|r| - (|s| - 1)] == upper(s[..1])
  {
    if s == "" then "" else upper(s[..1]) + s[1..]
  }

  /** The ASCII part of `toUpperCase`, enough for the example below. */
  function AsciiUpperCase(t: string): (u: string)
    ensures |u| == |t|
  {
    seq(|t|, i requires 0 <= i < |t| => if 'a' <= t[i] <= 'z' then (t[i] as int - 32) as char else t[i])
  }

  lemma CapitalizeExample()
    ensures Capitalize("pepe", AsciiUpperCase) == "Pepe"
    ensures Capitalize("Pepe", AsciiUpperCase) == "Pepe"
  {
    assert AsciiUpperCase("p") == "P";
    assert AsciiUpperCase("P") == "P";
  }

  // ---------------------------------------------------------------------------
  // submitForm

  /** A field of the JSON body built from a form. */
  datatype FormValue = Plain(text: string) | Flag(on: bool)

  const NotificationsField := "email_notifications"
  const PasswordConfirmField := "password-confirm"

  /** One form entry: the notifications checkbox becomes a boolean; the confirmation and empty values are skipped. */
  function FormStep(data: map<string, FormValue>, entry: (string, string)): map<string, FormValue>
  {
    if entry.0 == NotificationsField then data[entry.0 := Flag(entry.1 == "on")]
    else if entry.0 != PasswordConfirmField && entry.1 != "" then data[entry.0 := Plain(entry.1)]
    else data
  }

  /** The body built from the entries, in order. */
  function FormDataOf(entries: seq<(string, string)>): (r: map<string, FormValue>)
    ensures PasswordConfirmField !in r
    ensures forall k :: k in r ==> (k == NotificationsField <==> r[k].Flag?)
    ensures forall k :: k in r && r[k].Plain? ==> r[k].text != ""
    ensures forall k :: k in r ==> exists i :: 0 <= i < |entries| && entries[i].0 == k
    decreases |entries|
  {
    if entries == [] then map[]
    else
      var prefix := entries[..|entries| - 1];
      var r := FormStep(FormDataOf(prefix), entries[|entries| - 1]);
      assert forall k :: k in r ==> exists i :: 0 <= i < |entries| && entries[i].0 == k by {
        forall k | k in r ensures exists i :: 0 <= i < |entries| && entries[i].0 == k {
          if k != entries[|entries| - 1].0 {
            var i :| 0 <= i < |prefix| && prefix[i].0 == k;
            assert entries[i].0 == k;
          }
        }
      }
      r
  }

  /** The data-building loop of `submitForm`. */
  method FormData(entries: seq<(string, string)>) returns (data: map<string, FormValue>)
    ensures data == FormDataOf(entries)
  {
    data := map[];
    for i := 0 to |entries|
      invariant data == FormDataOf(entries[..i])
    {
      var (key, value) := entries[i];
      assert entries[..i + 1][..i] == entries[..i];
      if key == NotificationsField {
        data := data[key := Flag(value == "on")];
      } else if key != PasswordConfirmField && value != "" {
        data := data[key := Plain(value)];
      }
    }
    assert entries[..|entries|] == entries;
  }

  /** A later non-empty value for a field overwrites an earlier one. */
  lemma FormLastValueWins(entries: seq<(string, string)>, key: string, value: string)
    requires key != NotificationsField && key != PasswordConfirmField && value != ""
    ensures FormDataOf(entries + [(key, value)]) == FormDataOf(entries)[key := Plain(value)]
  {
    assert (entries + [(key, value)])[..|entries|] == entries;
  }

  /** A later empty value does not erase an earlier one. */
  lemma FormEmptyValueKeepsEarlier(entries: seq<(string, string)>, key: string)
    requires key != NotificationsField
    ensures FormDataOf(entries + [(key, "")]) == FormDataOf(entries)
  {
    assert (entries + [(key, "")])[..|entries|] == entries;
  }

  // ---------------------------------------------------------------------------
  // ApiError

  const Unknown := "Unknown error"

  /** All five fields of the reply are truthy. */
  predicate Described(response: Value)
  {
    && Truthy(Get(response, "status"))
    && Truthy(Get(response, "error"))
    && Truthy(Get(response, "message"))
    && Truthy(Get(response, "method"))
    && Truthy(Get(response, "path"))
  }

  /**
   * The message of an `ApiError` built from a reply. Destructuring undefined
   * or null throws a TypeError; the detailed form is used exactly when all
   * five fields are truthy. `stringify` is `JSON.stringify`.
   */
  function ApiErrorMessage(response: Value, stringify: Value -> string): (r: Completion<string>)
    ensures r.Thrown? <==> response.Undefined? || response.Null?
    ensures r.Thrown? ==> r.error == TypeError
    ensures r.Normal? && Described(response) ==>
              r.value == Text(Get(response, "status")) + " " + Text(Get(response, "error")) + ": "
                         + Text(Get(response, "message")) + " (" + Text(Get(response, "method")) + " "
                         + Text(Get(response, "path")) + ")"
    ensures r.Normal? && !Described(response) && Truthy(response) ==>
              r.value == Unknown + ": " + stringify(response)
    ensures r.Normal? && !Truthy(response) ==> r.value == Unknown
  {
    if response.Undefined? || response.Null? then Thrown(TypeError)
    else if Described(response) then
      Normal(Text(Get(response, "status")) + " " + Text(Get(response, "error")) + ": "
             + Text(Get(response, "message")) + " (" + Text(Get(response, "method")) + " "
             + Text(Get(response, "path")) + ")")
    else if Truthy(response) then Normal(Unknown + ": " + stringify(response))
    else Normal(Unknown)
  }

  /** The bare "Unknown error" is reached only for the falsy replies that do not throw: false, 0 and "". */
  lemma BareUnknownOnlyForFalsyPrimitives(response: Value, stringify: Value -> string)
    requires forall v :: stringify(v) != ""
    ensures ApiErrorMessage(response, stringify) == Normal(Unknown) ==>
              response == Bool(false) || response == Num(0) || response == Str("")
  {
    var r := ApiErrorMessage(response, stringify);
    if Truthy(response) && Described(response) {
      assert r.value[|r.value| - 1] == ')';
    } else if Truthy(response) {
      assert |r.value| > |Unknown|;
    }
  }
}
