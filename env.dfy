/** The process environment as the CGI code sees it: the (name, value) pairs in the order
    `std::env::vars()` yields them, and `std::env::var` as a lookup of the first pair with the
    given name. */
module Env {
  import opened Wrappers

  type Environment = seq<(string, string)>

  /** `std::env::var(name)`, with a missing variable as None. */
  function Var(env: Environment, name: string): (r: Option<string>)
    ensures r.None? <==> forall i | 0 <= i < |env| :: env[i].0 != name
    ensures r.Some? ==> exists i | 0 <= i < |env| :: env[i] == (name, r.value)
  {
    if env == [] then None
    else if env[0].0 == name then Some(env[0].1)
    else
      var r := Var(env[1..], name);
      assert forall i | 1 <= i < |env| :: env[i] == env[1..][i - 1];
      r
  }

  /** The lookup finds the first pair with the name. */
  lemma {:induction false} VarFirst(env: Environment, name: string, i: nat)
    requires i < |env| && env[i].0 == name
    requires forall j | 0 <= j < i :: env[j].0 != name
    ensures Var(env, name) == Some(env[i].1)
  {
    if i > 0 {
      forall j | 0 <= j < i - 1 ensures env[1..][j].0 != name {
        assert env[1..][j] == env[j + 1];
      }
      VarFirst(env[1..], name, i - 1);
    }
  }
}
