/** GET /pictures/superposable: the names of all superposables. */
module SuperposableRoute {
  import opened Wrappers
  import Pictures

  /**
   * Lists every superposable's name in declaration order. The route answers
   * nothing when the list is empty, which never happens.
   */
  method Get() returns (r: Option<seq<string>>)
    ensures r.Some?
    ensures |r.value| == |Pictures.All|
    ensures forall i :: 0 <= i < |r.value| ==> r.value[i] == Pictures.Name(Pictures.All[i])
    ensures forall s :: Pictures.Name(s) in r.value
    ensures forall i, j :: 0 <= i < j < |r.value| ==> r.value[i] != r.value[j]
    ensures forall i :: 0 <= i < |r.value| ==> Pictures.FromParam(r.value[i]) == Ok(Pictures.All[i])
  {
    var superposables: seq<string> := [];
    var i := 0;
    while i < |Pictures.All|
      invariant 0 <= i <= |Pictures.All|
      invariant |superposables| == i
      invariant forall j :: 0 <= j < i ==> superposables[j] == Pictures.Name(Pictures.All[j])
    {
      superposables := superposables + [Pictures.Name(Pictures.All[i])];
      i := i + 1;
    }
    if superposables == [] {
      return None;
    }
    Pictures.AllIsComplete();
    forall s ensures Pictures.Name(s) in superposables {
      assert s in Pictures.All;
      var k :| 0 <= k < |Pictures.All| && Pictures.All[k] == s;
      assert superposables[k] == Pictures.Name(s);
    }
    forall i, j | 0 <= i < j < |superposables| ensures superposables[i] != superposables[j] {
      Pictures.NameInjective(Pictures.All[i], Pictures.All[j]);
    }
    forall i | 0 <= i < |superposables| ensures Pictures.FromParam(superposables[i]) == Ok(Pictures.All[i]) {
      Pictures.NameParses(Pictures.All[i]);
    }
    return Some(superposables);
  }
}
