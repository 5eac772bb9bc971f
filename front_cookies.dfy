/**
 * The older cookie parser of the front end. Unlike the current one it keeps
 * every piece: an empty key or value is stored, and a piece without '=' (the
 * empty cookie string included) throws, because its value is undefined.
 */
module FrontCookiesDraft {
  import opened Wrappers
  import opened Js
  import FrontUtils

  type Cookies = FrontUtils.Cookies

  /** One step of the reduction: the trimmed key gets the decoded trimmed value in a new object. */
  function Step(acc: Cookies, piece: string, decode: string -> Completion<string>): (r: Completion<Cookies>)
    ensures |Split(piece, '=')| < 2 ==> r == Thrown(TypeError)
    ensures r.Normal? && (forall k :: k in acc ==> Trim(k) == k) ==> forall k :: k in r.value ==> Trim(k) == k
  {
    var parts := Split(piece, '=');
    if |parts| < 2 then Thrown(TypeError)
    else
      TrimIdempotent(parts[0]);
      match decode(Trim(parts[1]))
      case Thrown(e) => Thrown(e)
      case Normal(decoded) => Normal(acc[Trim(parts[0]) := decoded])
  }

  /** `getCookies`: the pieces reduced left to right, stopping at the first throw. */
  function CookiesOf(pieces: seq<string>, decode: string -> Completion<string>): (r: Completion<Cookies>)
    ensures r.Normal? ==> forall k :: k in r.value ==> Trim(k) == k
    decreases |pieces|
  {
    if pieces == [] then Normal(map[])
    else
      match CookiesOf(pieces[..|pieces| - 1], decode)
      case Thrown(e) => Thrown(e)
      case Normal(acc) => Step(acc, pieces[|pieces| - 1], decode)
  }

  /** `getCookie`: the named cookie's JSON value, with the same lookup as the current parser. */
  function GetCookie<V>(name: string, cookie: string, decode: string -> Completion<string>,
                        parse: string -> Completion<V>)
    : (r: Completion<Option<V>>)
    ensures CookiesOf(Split(cookie, ';'), decode).Thrown? ==> r == Thrown(CookiesOf(Split(cookie, ';'), decode).error)
    ensures CookiesOf(Split(cookie, ';'), decode).Normal? ==>
              r == FrontUtils.Lookup(CookiesOf(Split(cookie, ';'), decode).value, name, parse)
  {
    match CookiesOf(Split(cookie, ';'), decode)
    case Thrown(e) => Thrown(e)
    case Normal(cookies) => FrontUtils.Lookup(cookies, name, parse)
  }

  /** Any piece without '=' makes the whole reduction throw. */
  lemma {:induction false} PieceWithoutEqualsThrows(pieces: seq<string>, i: nat, decode: string -> Completion<string>)
    requires i < |pieces| && '=' !in pieces[i]
    ensures CookiesOf(pieces, decode).Thrown?
    decreases |pieces|
  {
    var prefix := pieces[..|pieces| - 1];
    if i == |pieces| - 1 {
      SplitWithoutSeparator(pieces[i], '=');
    } else {
      assert prefix[i] == pieces[i];
      PieceWithoutEqualsThrows(prefix, i, decode);
    }
  }

  /** So does the empty cookie string, and `getCookie` throws a TypeError whatever the name. */
  lemma EmptyCookieThrows<V>(name: string, decode: string -> Completion<string>, parse: string -> Completion<V>)
    ensures CookiesOf(Split("", ';'), decode) == Thrown(TypeError)
    ensures GetCookie(name, "", decode, parse) == Thrown(TypeError)
  {
    assert Split("", '=') == [""];
  }

  /** The current parser skips the empty cookie string instead: `getCookie` is undefined. */
  lemma CurrentParserEmptyCookie<V>(name: string, decode: string -> Completion<string>, parse: string -> Completion<V>)
    ensures FrontUtils.CookiesOf(Split("", ';'), decode) == Normal(map[])
    ensures FrontUtils.Lookup(map[], name, parse) == Normal(None)
  {
    FrontUtils.PieceWithoutEqualsSkipped("");
    assert Split("", ';')[..0] == [];
  }

  /** A piece with exactly one '=' splits into its key and its value. */
  lemma SplitPair(key: string, value: string)
    requires '=' !in key && '=' !in value
    ensures Split(key + "=" + value, '=') == [key, value]
  {
    assert key + "=" + value == key + ['='] + value;
    SplitAtFirst(key, value, '=');
    SplitWithoutSeparator(value, '=');
  }

  /** A later piece with the same trimmed key overwrites the earlier value. */
  lemma LaterDuplicateWins(pieces: seq<string>, key: string, value: string, decode: string -> Completion<string>,
                           acc: Cookies, decoded: string)
    requires CookiesOf(pieces, decode) == Normal(acc)
    requires '=' !in key && '=' !in value
    requires decode(Trim(value)) == Normal(decoded)
    ensures CookiesOf(pieces + [key + "=" + value], decode) == Normal(acc[Trim(key) := decoded])
  {
    var piece := key + "=" + value;
    SplitPair(key, value);
    assert Step(acc, piece, decode) == Normal(acc[Trim(key) := decoded]);
    assert (pieces + [piece])[..|pieces|] == pieces;
  }

  /** A blank key is kept, as the empty key. */
  lemma BlankKeyKept(key: string, value: string, decode: string -> Completion<string>, decoded: string)
    requires '=' !in key && '=' !in value && Trim(key) == ""
    requires decode(Trim(value)) == Normal(decoded)
    ensures CookiesOf([key + "=" + value], decode) == Normal(map["" := decoded])
  {
    var piece := key + "=" + value;
    SplitPair(key, value);
    assert Step(map[], piece, decode) == Normal(map["" := decoded]);
    assert [piece][..0] == [];
  }

  /** The current parser skips the same piece. */
  lemma BlankKeySkippedByCurrentParser(key: string, value: string)
    requires '=' !in key && '=' !in value && Trim(key) == ""
    ensures FrontUtils.Pair(key + "=" + value).None?
  {
    SplitPair(key, value);
  }

  /** On a piece the current parser keeps, both parsers take the same step. */
  lemma StepsAgree(acc: Cookies, piece: string, decode: string -> Completion<string>)
    requires FrontUtils.Pair(piece).Some?
    ensures Step(acc, piece, decode) == FrontUtils.Step(acc, piece, decode)
  {
  }

  /** Where every piece is one the current parser keeps, the two parsers agree. */
  lemma {:induction false} AgreesOnWellFormedPieces(pieces: seq<string>, decode: string -> Completion<string>)
    requires forall i :: 0 <= i < |pieces| ==> FrontUtils.Pair(pieces[i]).Some?
    ensures CookiesOf(pieces, decode) == FrontUtils.CookiesOf(pieces, decode)
    decreases |pieces|
  {
    if pieces != [] {
      var prefix := pieces[..|pieces| - 1];
      var last := pieces[|pieces| - 1];
      assert forall i :: 0 <= i < |prefix| ==> prefix[i] == pieces[i];
      AgreesOnWellFormedPieces(prefix, decode);
      if CookiesOf(prefix, decode).Normal? {
        StepsAgree(CookiesOf(prefix, decode).value, last, decode);
      }
    }
  }
}
