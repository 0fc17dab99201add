/** Properties of a whole trace of driver calls, and how they survive appending
    the calls of one more step. */
module Protocol {
  import opened Native

  /** No call touches a resource after the call that released it; in
      particular nothing is released twice. */
  ghost predicate NoUseAfterRelease(t: seq<Event>) {
    forall i, j | 0 <= i < j < |t| && IsRelease(t[i]) :: Touched(t[i]) !! Touched(t[j])
  }

  /** Every destroy and every free is issued right after a context binding. */
  ghost predicate ContextBound(t: seq<Event>) {
    forall i | 0 <= i < |t| && NeedsContext(t[i]) :: 0 < i && t[i - 1] == Bind
  }

  /** The protocol the layer promises the driver. */
  ghost predicate TraceOk(t: seq<Event>) {
    NoUseAfterRelease(t) && ContextBound(t)
  }

  /** No call of `t` released `r`. */
  ghost predicate Unreleased(t: seq<Event>, r: Resource) {
    forall i | 0 <= i < |t| && IsRelease(t[i]) :: r !in Touched(t[i])
  }

  /** Every call of `t` touches only resources that `t0` has not released. */
  ghost predicate TouchesOnlyUnreleased(t0: seq<Event>, t: seq<Event>) {
    forall j, r | 0 <= j < |t| && r in Touched(t[j]) :: Unreleased(t0, r)
  }

  /** Every resource touched by `t` has an identifier below `n`. */
  ghost predicate IdsBelow(t: seq<Event>, n: nat) {
    forall j, r | 0 <= j < |t| && r in Touched(t[j]) :: Id(r) < n
  }

  lemma {:induction false} UnreleasedAppend(t: seq<Event>, s: seq<Event>, r: Resource)
    ensures Unreleased(t + s, r) <==> Unreleased(t, r) && Unreleased(s, r)
  {
    if Unreleased(t, r) && Unreleased(s, r) {
      forall i | 0 <= i < |t + s| && IsRelease((t + s)[i])
        ensures r !in Touched((t + s)[i])
      {
        if i >= |t| {
          assert (t + s)[i] == s[i - |t|];
        }
      }
    }
    if Unreleased(t + s, r) {
      forall i | 0 <= i < |t| && IsRelease(t[i])
        ensures r !in Touched(t[i])
      {
        assert t[i] == (t + s)[i];
      }
      forall i | 0 <= i < |s| && IsRelease(s[i])
        ensures r !in Touched(s[i])
      {
        assert s[i] == (t + s)[|t| + i];
      }
    }
  }

  /** Appending a stretch that keeps the protocol by itself and touches only
      resources still alive keeps the protocol. */
  lemma {:induction false} AppendTraceOk(t: seq<Event>, s: seq<Event>)
    requires TraceOk(t) && TraceOk(s)
    requires TouchesOnlyUnreleased(t, s)
    ensures TraceOk(t + s)
  {
    var u := t + s;
    forall i, j | 0 <= i < j < |u| && IsRelease(u[i])
      ensures Touched(u[i]) !! Touched(u[j])
    {
      if j < |t| {
        assert u[i] == t[i] && u[j] == t[j];
      } else if i >= |t| {
        assert u[i] == s[i - |t|] && u[j] == s[j - |t|];
      } else {
        assert u[i] == t[i] && u[j] == s[j - |t|];
        forall r | r in Touched(u[j]) ensures r !in Touched(u[i]) {
          assert Unreleased(t, r);
        }
      }
    }
    forall i | 0 <= i < |u| && NeedsContext(u[i])
      ensures 0 < i && u[i - 1] == Bind
    {
      if i < |t| {
        assert u[i] == t[i] && u[i - 1] == t[i - 1];
      } else {
        assert u[i] == s[i - |t|];
        assert u[i - 1] == s[i - 1 - |t|];
      }
    }
  }

  lemma {:induction false} IdsBelowAppend(t: seq<Event>, s: seq<Event>, n: nat)
    requires IdsBelow(t, n) && IdsBelow(s, n)
    ensures IdsBelow(t + s, n)
  {
    forall j, r | 0 <= j < |t + s| && r in Touched((t + s)[j])
      ensures Id(r) < n
    {
      if j >= |t| {
        assert (t + s)[j] == s[j - |t|];
      }
    }
  }

  /** A resource whose identifier is not yet issued has not been released. */
  lemma FreshUnreleased(t: seq<Event>, n: nat, r: Resource)
    requires IdsBelow(t, n) && n <= Id(r)
    ensures Unreleased(t, r)
  {
  }
}
