/** Each guard's answer to every request, and what a handler behind it sees, told from what the request brings. */
module GuardVerdicts {
  import opened Wrappers
  import opened Delegation

  /** The request shows the secret the guard reads, in the header that goes with it. */
  predicate Presents(h: Headers, s: Secret) {
    s.Expected? && s.value != "" && (s.header.PlatformToken? ==> h.token == s.value) && (s.header.InternalSecret? ==> h.internal == s.value)
  }

  predicate Unusable(s: Secret) {
    s == Unconfigured || s == Unreadable || s.value == ""
  }

  predicate Full(id: Identity) {
    id.userId != "" && id.appId != "" && id.appRole != ""
  }

  /** At most one delegation header, and that one well-shaped. */
  predicate OneDelegation(h: Headers) {
    h.delegation == [] || (|h.delegation| == 1 && Shaped(h.delegation[0]))
  }

  /** The one invocation of a request that carries the header and is not refused for it. */
  function Invoked(r: Request, b: Binding): Invocation
    requires r.headers.spellings > 0 && !BadInvocation(r, b)
  {
    r.headers.invocations[0].invocation
  }

  predicate HasPlace(r: Request) {
    r.ctx.identity.Some? && r.ctx.identity.value.appRole != ""
  }

  // ---------------------------------------------------------------- PlatformAuth

  /**
   A request passes PlatformAuth with a role it already has, or in local
   development without a secret, or by showing the secret with a good
   invocation of a full identity or with full claims. Otherwise it is told 503
   for want of a usable secret, 400 for its invocation, and else 401.
   */
  lemma {:induction false} PlatformVerdict(inLambda: bool, secret: Secret, r: Request)
    ensures var o, bad := PlatformAuth(inLambda, secret, r), BadInvocation(r, Binding("", ""));
            var waved := HasPlace(r) || (!inLambda && secret == Unconfigured);
            && (o.Passed? <==>
                  waved ||
                  (Presents(r.headers, secret) && !bad &&
                   if r.headers.spellings > 0 then Full(Invoked(r, Binding("", "")).identity)
                   else Full(r.headers.claims) && (r.ctx.surface ==> OneDelegation(r.headers))))
            && (o == Rejected(503) <==> !waved && Unusable(secret))
            && (o == Rejected(400) <==> !waved && Presents(r.headers, secret) && bad)
            && (o.Rejected? ==> o.status in {503, 400, 401})
  {
    RefusedExactly(r, Binding("", ""));
    if |r.headers.delegation| == 1 {
      ShapedIs(r.headers.delegation[0]);
    }
  }

  /** What is behind PlatformAuth: who the caller is, the delegation that is active, and a wire without either header. */
  lemma {:induction false} PlatformHandsOn(inLambda: bool, secret: Secret, r: Request)
    requires PlatformAuth(inLambda, secret, r).Passed?
    ensures var o := PlatformAuth(inLambda, secret, r);
            var waved := HasPlace(r) || (!inLambda && secret == Unconfigured);
            var typed := !waved && r.headers.spellings > 0;
            && (typed ==> !BadInvocation(r, Binding("", "")))
            && o.checked == !waved && o.request.occurrence == r.occurrence
            && o.request.ctx == r.ctx.(
                 identity := if HasPlace(r) then r.ctx.identity
                             else if waved then Some(Identity("local-dev-user", "local-dev-app", "admin"))
                             else if typed then Some(Invoked(r, Binding("", "")).identity)
                             else Some(r.headers.claims),
                 active := if !r.ctx.surface then ""
                           else if HasPlace(r) then (if r.ctx.proxyTrust || r.ctx.payloadTrust then r.ctx.pending else "")
                           else if waved then ""
                           else if typed then Invoked(r, Binding("", "")).delegation
                           else if r.headers.delegation != [] then r.headers.delegation[0] else r.ctx.pending,
                 pending := "")
            && o.request.headers.spellings == 0 && o.request.headers.delegation == []
            && o.request.headers.token == r.headers.token && o.request.headers.internal == r.headers.internal
            && o.request.headers.claims == if typed then Identity("", "", "") else r.headers.claims
  {
    RefusedExactly(r, Binding("", ""));
  }

  // ---------------------------------------------------------------- InternalAuth

  /** The payload mark or local development without a secret lets a request by; else the secret and a good invocation, if any. */
  lemma {:induction false} InternalVerdict(inLambda: bool, secret: Secret, binding: Binding, r: Request)
    ensures var o, bad := InternalAuth(inLambda, secret, binding, r), BadInvocation(r, Bound(Internal, binding, r));
            var waved := r.ctx.payloadTrust || (!inLambda && secret == Unconfigured);
            && (o.Passed? <==> waved || (Presents(r.headers, secret) && !bad))
            && (o == Rejected(503) <==> !waved && Unusable(secret))
            && (o == Rejected(400) <==> !waved && Presents(r.headers, secret) && bad)
            && (o.Rejected? ==> o.status in {503, 400, 401})
  {
    BoundIs(Internal, binding, r);
    RefusedExactly(r, Bound(Internal, binding, r));
  }

  /** Behind InternalAuth nothing is delegated; claims of the wire count only after the secret, and never over an identity already there. */
  lemma {:induction false} InternalHandsOn(inLambda: bool, secret: Secret, binding: Binding, r: Request)
    requires InternalAuth(inLambda, secret, binding, r).Passed?
    ensures var o, b := InternalAuth(inLambda, secret, binding, r), Bound(Internal, binding, r);
            var waved := r.ctx.payloadTrust || (!inLambda && secret == Unconfigured);
            var typed := !waved && r.headers.spellings > 0;
            && (typed ==> !BadInvocation(r, b))
            && o.checked == !waved && o.request.occurrence == r.occurrence
            && o.request.ctx == r.ctx.(
                 identity := if typed then Some(Invoked(r, b).identity)
                             else if waved || r.ctx.identity.Some? || r.headers.claims == Identity("", "", "") then r.ctx.identity
                             else Some(r.headers.claims),
                 active := "", pending := "")
            && o.request.headers.spellings == 0 && o.request.headers.delegation == []
            && o.request.headers.token == r.headers.token && o.request.headers.internal == r.headers.internal
            && o.request.headers.claims == if typed then Identity("", "", "") else r.headers.claims
  {
    BoundIs(Internal, binding, r);
    RefusedExactly(r, Bound(Internal, binding, r));
  }

  // ---------------------------------------------------------------- RequireProxy

  /**
   Lambda, the payload mark or an unconfigured secret let a request by; else
   it shows the secret, with a good invocation or, on the platform surface, at
   most one well-shaped delegation. Otherwise 403 without the secret, 400 for
   the invocation, 401 for the delegation.
   */
  lemma {:induction false} ProxyVerdict(inLambda: bool, secret: Secret, binding: Binding, r: Request)
    ensures var o, bad := RequireProxy(inLambda, secret, binding, r), BadInvocation(r, Bound(Proxy, binding, r));
            var waved := inLambda || r.ctx.payloadTrust || secret == Unconfigured;
            && (o.Passed? <==>
                  waved ||
                  (Presents(r.headers, secret) && !bad &&
                   (r.headers.spellings > 0 || !r.ctx.surface || OneDelegation(r.headers))))
            && (o == Rejected(403) <==> !waved && !Presents(r.headers, secret))
            && (o == Rejected(400) <==> !waved && Presents(r.headers, secret) && bad)
            && (o.Rejected? ==> o.status in {403, 400, 401})
  {
    BoundIs(Proxy, binding, r);
    RefusedExactly(r, Bound(Proxy, binding, r));
    if |r.headers.delegation| == 1 {
      ShapedIs(r.headers.delegation[0]);
    }
  }

  /** Behind RequireProxy a delegation waits only on the platform surface, and the proxy mark means the secret was checked here or before. */
  lemma {:induction false} ProxyHandsOn(inLambda: bool, secret: Secret, binding: Binding, r: Request)
    requires RequireProxy(inLambda, secret, binding, r).Passed?
    ensures var o, b := RequireProxy(inLambda, secret, binding, r), Bound(Proxy, binding, r);
            var waved := inLambda || r.ctx.payloadTrust || secret == Unconfigured;
            var held := r.ctx.surface && (inLambda || r.ctx.payloadTrust || !waved);
            var typed := !waved && r.headers.spellings > 0;
            && (typed ==> !BadInvocation(r, b))
            && o.checked == !waved && o.request.occurrence == r.occurrence
            && o.request.ctx == r.ctx.(
                 identity := if typed then Some(Invoked(r, b).identity)
                             else if waved || r.ctx.identity.Some? || r.headers.claims == Identity("", "", "") then r.ctx.identity
                             else Some(r.headers.claims),
                 active := if held && !typed then r.ctx.active else "",
                 pending := if !held then ""
                            else if typed then Invoked(r, b).delegation
                            else if !waved && r.headers.delegation != [] then r.headers.delegation[0] else r.ctx.pending,
                 proxyTrust := r.ctx.proxyTrust || !waved)
            && o.request.headers.spellings == 0 && o.request.headers.delegation == []
            && o.request.headers.token == r.headers.token && o.request.headers.internal == r.headers.internal
            && o.request.headers.claims == if typed then Identity("", "", "") else r.headers.claims
  {
    BoundIs(Proxy, binding, r);
    RefusedExactly(r, Bound(Proxy, binding, r));
  }

  // ---------------------------------------------------------------- the context helpers

  /** Activating: only on the platform surface, only what is pending, and nothing stays pending; an empty delegation is none. */
  lemma ActivationIsExact(c: Context)
    ensures ActivatePending(c) == c.(active := if c.surface then c.pending else "", pending := "")
    ensures WithDelegation(c, "") == c && WithPending(c, "") == c
  {
  }

  /** Module code can make of a request any other with the same private context values. */
  lemma ModuleCodeReaches(inLambda: bool, r: Request, s: Request)
    requires s.occurrence == r.occurrence && s.ctx.(identity := r.ctx.identity) == r.ctx
    ensures Through(inLambda, ModuleCode(s.headers, s.ctx.identity), r) == Passed(s, false)
  {
  }
}
