/**
 * The wrapper around the admin, history and profile routes
 * (ProtectedRoute.tsx): a tri-state check of the `me` endpoint made once
 * per mount.
 */
module RouteGuard {
  import opened Http
  import opened Identity
  import Wrappers
  import Header

  /** `isAuthenticated`: null, true or false. */
  datatype Auth = Unknown | Authenticated | Unauthenticated

  const Initial: Auth := Unknown

  /** What the guard renders. */
  datatype View = Checking | Children | Redirect(path: string, replace: bool)

  /** Any answer of `me` decides: any success signs in, any failure signs out. */
  function Resolve<T>(reply: Reply<T>): (a: Auth)
    ensures a != Unknown
    ensures a == Authenticated <==> reply.Ok?
  {
    if reply.Ok? then Authenticated else Unauthenticated
  }

  function Render(a: Auth): (v: View)
    ensures v == Children <==> a == Authenticated
    ensures v == Checking <==> a == Unknown
    ensures a == Unauthenticated ==> v == Redirect("/login", true)
  {
    match a
    case Unknown => Checking
    case Authenticated => Children
    case Unauthenticated => Redirect("/login", true)
  }

  /** Events the mounted guard can see. */
  datatype Event = Mount | PathChange(path: string)

  /** The effect has no dependencies: it runs on mount and never again for the same instance. */
  predicate ChecksOn(e: Event)
  {
    e.Mount?
  }

  /** The events one guard instance sees: its mount, then one change per path in `paths`. */
  function Trace(paths: seq<string>): (es: seq<Event>)
    ensures |es| == |paths| + 1 && es[0] == Mount
    ensures forall i :: 0 <= i < |paths| ==> es[i + 1] == PathChange(paths[i])
  {
    [Mount] + seq(|paths|, i requires 0 <= i < |paths| => PathChange(paths[i]))
  }

  /** How many of the events `es` run the check. */
  function Checks(es: seq<Event>): (n: nat)
    ensures n <= |es|
    decreases |es|
  {
    if |es| == 0 then 0 else (if ChecksOn(es[0]) then 1 else 0) + Checks(es[1..])
  }

  /** Path changes alone never run the check. */
  lemma {:induction false} PathChangesNeverCheck(es: seq<Event>)
    requires forall i :: 0 <= i < |es| ==> es[i].PathChange?
    ensures Checks(es) == 0
    decreases |es|
  {
    if |es| > 0 {
      PathChangesNeverCheck(es[1..]);
    }
  }

  /** One guard instance checks exactly once, however many path changes follow its mount. */
  lemma OneCheckPerInstance(paths: seq<string>)
    ensures Checks(Trace(paths)) == 1
  {
    var es := Trace(paths);
    PathChangesNeverCheck(es[1..]);
  }

  /** The sequence of views a mounted guard goes through for one `me` answer. */
  function Views<T>(reply: Reply<T>): (vs: seq<View>)
    ensures |vs| == 2 && vs[0] == Checking
    ensures vs[1] == Children <==> reply.Ok?
    ensures reply.Fail? ==> vs[1] == Redirect("/login", true)
  {
    [Render(Initial), Render(Resolve(reply))]
  }

  /** No flash of protected content: before the answer nothing but the indicator is shown. */
  lemma NoChildrenBeforeAnswer<T>(reply: Reply<T>)
    ensures Children !in Views(reply)[..1]
    ensures reply.Fail? ==> Children !in Views(reply)
  {
  }

  /**
   * The guard and the header read the same answer differently: an empty
   * `me` body lets the guarded page render while the header stays
   * signed out.
   */
  lemma EmptyBodyGuardAndHeaderDisagree()
    ensures Render(Resolve<Wrappers.Option<UserData>>(Ok(Wrappers.None))) == Children
    ensures !Header.CheckAuth(Header.Initial, Ok(Wrappers.None)).loggedIn
  {
  }
}
