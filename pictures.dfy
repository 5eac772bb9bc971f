/** The superposable pictures a user can lay over a capture, and their names. */
module Pictures {
  import opened Wrappers

  datatype Superposable = Chic | Cry | Honk | Rage | Sad | Smirk | Stoned | Sweat

  /** Every superposable, in declaration order. */
  const All: seq<Superposable> := [Chic, Cry, Honk, Rage, Sad, Smirk, Stoned, Sweat]

  /** A superposable's name: its variant name in lower case. */
  function Name(s: Superposable): (name: string)
    ensures |name| > 0
    ensures forall i :: 0 <= i < |name| ==> 'a' <= name[i] <= 'z'
  {
    match s
    case Chic => "chic"
    case Cry => "cry"
    case Honk => "honk"
    case Rage => "rage"
    case Sad => "sad"
    case Smirk => "smirk"
    case Stoned => "stoned"
    case Sweat => "sweat"
  }

  /** The enum's string parser: exact, case-sensitive names only. */
  function FromStr(s: string): (r: Option<Superposable>)
    ensures r.Some? ==> Name(r.value) == s
  {
    if s == "chic" then Some(Chic)
    else if s == "cry" then Some(Cry)
    else if s == "honk" then Some(Honk)
    else if s == "rage" then Some(Rage)
    else if s == "sad" then Some(Sad)
    else if s == "smirk" then Some(Smirk)
    else if s == "stoned" then Some(Stoned)
    else if s == "sweat" then Some(Sweat)
    else None
  }

  /** The path-parameter parser: a superposable, or the unrecognised parameter itself as the error. */
  function FromParam(param: string): (r: Result<Superposable, string>)
    ensures r.Ok? <==> exists s :: Name(s) == param
    ensures r.Ok? ==> Name(r.value) == param
    ensures r.Err? ==> r.error == param
  {
    match FromStr(param)
    case Some(s) => Ok(s)
    case None =>
      assert forall s :: Name(s) != param by {
        forall s ensures Name(s) != param {
          NameParses(s);
        }
      }
      Err(param)
  }

  /** Every name parses back to its superposable. */
  lemma NameParses(s: Superposable)
    ensures FromStr(Name(s)) == Some(s)
  {
  }

  /** Names are distinct. */
  lemma NameInjective(a: Superposable, b: Superposable)
    ensures Name(a) == Name(b) ==> a == b
  {
    NameParses(a);
    NameParses(b);
  }

  /** There are exactly eight superposables, each listed once. */
  lemma AllIsComplete()
    ensures |All| == 8
    ensures forall s :: s in All
    ensures forall i, j :: 0 <= i < j < |All| ==> All[i] != All[j]
  {
    forall s ensures s in All {
      match s {
        case Chic => assert All[0] == s;
        case Cry => assert All[1] == s;
        case Honk => assert All[2] == s;
        case Rage => assert All[3] == s;
        case Sad => assert All[4] == s;
        case Smirk => assert All[5] == s;
        case Stoned => assert All[6] == s;
        case Sweat => assert All[7] == s;
      }
    }
  }
}
