/** The three exported guards: what each does to a request's identity and to the actor delegation it carries. */
module Delegation {
  import opened Wrappers
  import ModuleIds

  const MAX_DELEGATION := 4096

  datatype Identity = Identity(userId: string, appId: string, appRole: string)

  /** The private context values of a request. */
  datatype Context = Context(identity: Option<Identity>, active: string, pending: string,
                             surface: bool, proxyTrust: bool, payloadTrust: bool, binding: Option<Binding>)

  /** The module a route belongs to; an empty part binds nothing. */
  datatype Binding = Binding(moduleId: string, moduleSlug: string)

  const NO_BINDING := Binding("", "")

  /** What a request is, on the wire. */
  datatype Occurrence = Occurrence(verb: string, path: string, body: string)

  /**
   A decoded invocation: the occurrence and module it was made for, the claims
   it carries, and whether the compatibility headers not modelled here agree.
   */
  datatype Invocation = Invocation(occurrence: Occurrence, moduleId: string, moduleSlug: string,
                                   identity: Identity, delegation: string, othersAgree: bool)

  /** One value of the invocation header. */
  datatype Wire = Undecodable | Typed(invocation: Invocation)

  datatype Headers = Headers(token: string, internal: string, claims: Identity, delegation: seq<string>,
                             spellings: nat, invocations: seq<Wire>)

  datatype Request = Request(ctx: Context, headers: Headers, occurrence: Occurrence)

  datatype SecretHeader = PlatformToken | InternalSecret

  /** One reading of the secret source. */
  datatype Secret = Unconfigured | Unreadable | Expected(value: string, header: SecretHeader)

  /** checked tells whether this guard compared a presented secret with the expected one. */
  datatype Outcome = Passed(request: Request, checked: bool) | Rejected(status: int)

  // ---------------------------------------------------------------- the context values

  /** Transport-level shape of a delegation. */
  predicate ValidTransport(v: string) {
    && v != "" && |v| <= MAX_DELEGATION
    && forall i :: 0 <= i < |v| ==> v[i] != ',' && v[i] != ' ' && v[i] != '\t' && v[i] != '\r' && v[i] != '\n'
  }

  function WithoutDelegation(c: Context): Context {
    c.(active := "", pending := "")
  }

  function WithDelegation(c: Context, v: string): Context {
    if v == "" then c else c.(active := v)
  }

  function WithPending(c: Context, v: string): Context {
    if v == "" then c else c.(pending := v)
  }

  function ActivatePending(c: Context): Context {
    if !c.surface then WithoutDelegation(c) else WithDelegation(WithoutDelegation(c), c.pending)
  }

  // ---------------------------------------------------------------- the request

  function StripDelegation(r: Request): Request {
    r.(headers := r.headers.(delegation := []))
  }

  function StripInvocation(r: Request): Request {
    r.(headers := r.headers.(spellings := 0, invocations := []))
  }

  function Discard(r: Request): Request {
    StripDelegation(r).(ctx := WithoutDelegation(r.ctx))
  }

  /** The invocation and the legacy claims it replaces, the delegation header among them. */
  function StripLegacy(r: Request): Request {
    var clean := StripInvocation(StripDelegation(r));
    clean.(headers := clean.headers.(claims := Identity("", "", "")))
  }

  predicate LegacyDelegationAgrees(values: seq<string>, delegation: string) {
    values == [] || (delegation != "" && values == [delegation])
  }

  predicate LegacyClaimsAgree(claims: Identity, id: Identity) {
    && (claims.userId == "" || claims.userId == id.userId)
    && (claims.appId == "" || claims.appId == id.appId)
    && (claims.appRole == "" || claims.appRole == id.appRole)
  }

  /** moduleMatchesInvocation */
  predicate ModuleMatches(b: Binding, inv: Invocation) {
    && (b.moduleId == "" || ModuleIds.Canonical(b.moduleId) == Some(inv.moduleId))
    && (b.moduleSlug == "" || b.moduleSlug == inv.moduleSlug)
  }

  datatype Consumed = Consumed(request: Request, typed: bool) | Refused

  /** consumeTrustedInvocation, called only after the secret was checked; an empty binding matches every module. */
  function ConsumeInvocation(r: Request, binding: Binding): Consumed {
    if r.headers.spellings == 0 then Consumed(r, false)
    else if r.headers.spellings != 1 || |r.headers.invocations| != 1 || r.headers.invocations[0].Undecodable? then Refused
    else
      var inv := r.headers.invocations[0].invocation;
      if r.occurrence != inv.occurrence || !ModuleMatches(binding, inv) || (inv.delegation != "" && !ValidTransport(inv.delegation))
         || !LegacyDelegationAgrees(r.headers.delegation, inv.delegation) || !LegacyClaimsAgree(r.headers.claims, inv.identity)
         || !inv.othersAgree
      then Refused
      else
        var c := WithoutDelegation(r.ctx).(identity := Some(inv.identity));
        Consumed(StripLegacy(r.(ctx := WithPending(c, inv.delegation))), true)
  }

  /** None when the header is there but not as one well-shaped value. */
  function CapturePending(r: Request): Option<Request> {
    var values := r.headers.delegation;
    if values == [] then Some(r)
    else if |values| != 1 || !ValidTransport(values[0]) then None
    else Some(StripDelegation(r).(ctx := WithPending(r.ctx, values[0])))
  }

  function PromoteIdentity(r: Request): Request {
    if r.ctx.identity.Some? || r.headers.claims == Identity("", "", "") then r
    else r.(ctx := r.ctx.(identity := Some(r.headers.claims)))
  }

  function Presented(h: Headers, name: SecretHeader): string {
    match name case PlatformToken => h.token case InternalSecret => h.internal
  }

  predicate Matches(h: Headers, s: Secret) {
    s.Expected? && Presented(h, s.header) == s.value
  }

  function ResolveBinding(c: Context, fallback: Binding): Binding {
    if fallback.moduleId != "" || fallback.moduleSlug != "" then fallback
    else if c.binding.Some? then c.binding.value else fallback
  }

  // ---------------------------------------------------------------- the guards

  /** The identity PlatformAuth gives every request in local development without a secret. */
  const LOCAL_ADMIN := Identity("local-dev-user", "local-dev-app", "admin")

  predicate Complete(id: Identity) {
    id.userId != "" && id.appId != "" && id.appRole != ""
  }

  function PlatformAuth(inLambda: bool, secret: Secret, r: Request): Outcome {
    if r.ctx.identity.Some? && r.ctx.identity.value.appRole != "" then
      var settled := if r.ctx.surface && (r.ctx.proxyTrust || r.ctx.payloadTrust)
                     then r.(ctx := ActivatePending(r.ctx)) else Discard(r);
      Passed(StripInvocation(StripDelegation(settled)), false)
    else if secret.Unconfigured? && !inLambda then
      var admin := r.(ctx := r.ctx.(identity := Some(LOCAL_ADMIN)));
      Passed(StripInvocation(Discard(admin)), false)
    else if !secret.Expected? || secret.value == "" then Rejected(503)
    else if !Matches(r.headers, secret) then Rejected(401)
    else
      match ConsumeInvocation(r, NO_BINDING)
      case Refused => Rejected(400)
      case Consumed(trusted, typed) => if typed then AdmitTyped(trusted) else AdmitClaims(trusted)
  }

  function AdmitTyped(r: Request): Outcome {
    if r.ctx.identity.None? || !Complete(r.ctx.identity.value) then Rejected(401)
    else Passed(if r.ctx.surface then r.(ctx := ActivatePending(r.ctx)) else Discard(r), true)
  }

  function AdmitClaims(r: Request): Outcome {
    if !Complete(r.headers.claims) then Rejected(401)
    else
      var known := r.(ctx := r.ctx.(identity := Some(r.headers.claims)));
      if !known.ctx.surface then Passed(Discard(known), true)
      else
        match CapturePending(known)
        case None => Rejected(401)
        case Some(captured) => Passed(captured.(ctx := ActivatePending(captured.ctx)), true)
  }

  function InternalAuth(inLambda: bool, secret: Secret, binding: Binding, r: Request): Outcome {
    if r.ctx.payloadTrust then Passed(StripInvocation(Discard(r)), false)
    else if !secret.Expected? || secret.value == "" then
      if inLambda || !secret.Unconfigured? then Rejected(503) else Passed(StripInvocation(Discard(r)), false)
    else if !Matches(r.headers, secret) then Rejected(401)
    else
      match ConsumeInvocation(r, ResolveBinding(r.ctx, binding))
      case Refused => Rejected(400)
      case Consumed(trusted, _) => Passed(PromoteIdentity(Discard(trusted)), true)
  }

  function RequireProxy(inLambda: bool, secret: Secret, binding: Binding, r: Request): Outcome {
    if inLambda || r.ctx.payloadTrust then
      Passed(StripInvocation(if r.ctx.surface then StripDelegation(r) else Discard(r)), false)
    else if secret.Unconfigured? then Passed(StripInvocation(Discard(r)), false)
    else if secret.Unreadable? || secret.value == "" then Rejected(403)
    else if !Matches(r.headers, secret) then Rejected(403)
    else
      match ConsumeInvocation(r, ResolveBinding(r.ctx, binding))
      case Refused => Rejected(400)
      case Consumed(trusted, typed) => AdmitProxied(trusted, typed)
  }

  function AdmitProxied(r: Request, typed: bool): Outcome {
    match (if !r.ctx.surface then Some(Discard(r)) else if !typed then CapturePending(r) else Some(r))
    case None => Rejected(401)
    case Some(settled) =>
      var known := PromoteIdentity(settled);
      Passed(known.(ctx := known.ctx.(proxyTrust := true)), true)
  }

  // ---------------------------------------------------------------- nesting

  datatype Guard = Platform | Internal | Proxy | Public

  /**
   What a request goes through, outermost first: a guard with the secret it
   reads and its module's binding, or module code, which may set the identity
   and every header but no private context value.
   */
  datatype Layer = Guarded(guard: Guard, secret: Secret, binding: Binding) | ModuleCode(headers: Headers, identity: Option<Identity>)

  function Through(inLambda: bool, layer: Layer, r: Request): Outcome {
    match layer
    case Guarded(Platform, secret, _) => PlatformAuth(inLambda, secret, r)
    case Guarded(Internal, secret, binding) => InternalAuth(inLambda, secret, binding, r)
    case Guarded(Proxy, secret, binding) => RequireProxy(inLambda, secret, binding, r)
    case Guarded(Public, _, _) => Passed(r, false)
    case ModuleCode(headers, identity) => Passed(r.(ctx := r.ctx.(identity := identity), headers := headers), false)
  }

  /** checked is whether any guard so far compared a secret. */
  function Serve(inLambda: bool, layers: seq<Layer>, r: Request, checked: bool): Outcome
    decreases |layers|
  {
    if layers == [] then Passed(r, checked)
    else
      match Through(inLambda, layers[0], r)
      case Rejected(status) => Rejected(status)
      case Passed(next, here) => Serve(inLambda, layers[1..], next, checked || here)
  }

  /** A request as it enters: nothing active, and a pending delegation only from a trusted payload. */
  predicate Enters(r: Request) {
    r.ctx.active == "" && !r.ctx.proxyTrust && (r.ctx.pending != "" ==> r.ctx.payloadTrust)
  }

  // ---------------------------------------------------------------- trust

  predicate Trusted(r: Request, checked: bool) {
    && (r.ctx.active != "" ==> r.ctx.surface && (r.ctx.payloadTrust || checked))
    && (r.ctx.pending != "" ==> r.ctx.payloadTrust || checked)
    && (r.ctx.proxyTrust ==> checked)
  }

  lemma {:induction false} PlatformKeepsTrust(inLambda: bool, secret: Secret, r: Request, checked: bool)
    requires Trusted(r, checked)
    ensures var o := PlatformAuth(inLambda, secret, r); o.Passed? ==> Trusted(o.request, checked || o.checked)
  {
  }

  lemma {:induction false} InternalKeepsTrust(inLambda: bool, secret: Secret, binding: Binding, r: Request, checked: bool)
    requires Trusted(r, checked)
    ensures var o := InternalAuth(inLambda, secret, binding, r); o.Passed? ==> Trusted(o.request, checked || o.checked)
  {
  }

  lemma {:induction false} ProxyKeepsTrust(inLambda: bool, secret: Secret, binding: Binding, r: Request, checked: bool)
    requires Trusted(r, checked)
    ensures var o := RequireProxy(inLambda, secret, binding, r); o.Passed? ==> Trusted(o.request, checked || o.checked)
  {
  }

  lemma {:induction false} KeepsTrust(inLambda: bool, layer: Layer, r: Request, checked: bool)
    requires Trusted(r, checked)
    ensures var o := Through(inLambda, layer, r); o.Passed? ==> Trusted(o.request, checked || o.checked)
  {
    if layer.Guarded? {
      match layer.guard
      case Platform => PlatformKeepsTrust(inLambda, layer.secret, r, checked);
      case Internal => InternalKeepsTrust(inLambda, layer.secret, layer.binding, r, checked);
      case Proxy => ProxyKeepsTrust(inLambda, layer.secret, layer.binding, r, checked);
      case Public =>
    }
  }

  lemma {:induction false} NestingKeepsTrust(inLambda: bool, layers: seq<Layer>, r: Request, checked: bool)
    requires Trusted(r, checked)
    ensures var o := Serve(inLambda, layers, r, checked); o.Passed? ==> Trusted(o.request, o.checked)
    decreases |layers|
  {
    if layers != [] {
      KeepsTrust(inLambda, layers[0], r, checked);
      var o := Through(inLambda, layers[0], r);
      if o.Passed? {
        NestingKeepsTrust(inLambda, layers[1..], o.request, checked || o.checked);
      }
    }
  }

  /** Whatever is nested, and whatever module code does in between, an active delegation means a platform surface and a trusted transport. */
  lemma ActiveMeansTrusted(inLambda: bool, layers: seq<Layer>, r: Request)
    requires Enters(r)
    ensures var o := Serve(inLambda, layers, r, false);
            o.Passed? && o.request.ctx.active != "" ==>
              o.request.ctx.surface && (o.request.ctx.payloadTrust || o.checked)
  {
    NestingKeepsTrust(inLambda, layers, r, false);
  }

  // ---------------------------------------------------------------- off the platform surface

  /** No layer marks the platform surface or the payload as trusted. */
  lemma {:induction false} PlatformKeepsMarks(inLambda: bool, secret: Secret, r: Request)
    ensures var o := PlatformAuth(inLambda, secret, r); o.Passed? ==> o.request.ctx.surface == r.ctx.surface && o.request.ctx.payloadTrust == r.ctx.payloadTrust
  {
  }

  lemma {:induction false} InternalKeepsMarks(inLambda: bool, secret: Secret, binding: Binding, r: Request)
    ensures var o := InternalAuth(inLambda, secret, binding, r); o.Passed? ==> o.request.ctx.surface == r.ctx.surface && o.request.ctx.payloadTrust == r.ctx.payloadTrust
  {
  }

  lemma {:induction false} ProxyKeepsMarks(inLambda: bool, secret: Secret, binding: Binding, r: Request)
    ensures var o := RequireProxy(inLambda, secret, binding, r); o.Passed? ==> o.request.ctx.surface == r.ctx.surface && o.request.ctx.payloadTrust == r.ctx.payloadTrust
  {
  }

  lemma {:induction false} KeepsMarks(inLambda: bool, layer: Layer, r: Request)
    ensures var o := Through(inLambda, layer, r);
            o.Passed? ==> o.request.ctx.surface == r.ctx.surface && o.request.ctx.payloadTrust == r.ctx.payloadTrust
  {
    if layer.Guarded? {
      match layer.guard
      case Platform => PlatformKeepsMarks(inLambda, layer.secret, r);
      case Internal => InternalKeepsMarks(inLambda, layer.secret, layer.binding, r);
      case Proxy => ProxyKeepsMarks(inLambda, layer.secret, layer.binding, r);
      case Public =>
    }
  }

  lemma {:induction false} PlatformStaysInactive(inLambda: bool, secret: Secret, r: Request)
    requires !r.ctx.surface && r.ctx.active == ""
    ensures var o := PlatformAuth(inLambda, secret, r); o.Passed? ==> !o.request.ctx.surface && o.request.ctx.active == ""
  {
  }

  lemma {:induction false} InternalStaysInactive(inLambda: bool, secret: Secret, binding: Binding, r: Request)
    requires !r.ctx.surface && r.ctx.active == ""
    ensures var o := InternalAuth(inLambda, secret, binding, r); o.Passed? ==> !o.request.ctx.surface && o.request.ctx.active == ""
  {
  }

  lemma {:induction false} ProxyStaysInactive(inLambda: bool, secret: Secret, binding: Binding, r: Request)
    requires !r.ctx.surface && r.ctx.active == ""
    ensures var o := RequireProxy(inLambda, secret, binding, r); o.Passed? ==> !o.request.ctx.surface && o.request.ctx.active == ""
  {
  }

  lemma {:induction false} StaysInactive(inLambda: bool, layer: Layer, r: Request)
    requires !r.ctx.surface && r.ctx.active == ""
    ensures var o := Through(inLambda, layer, r); o.Passed? ==> !o.request.ctx.surface && o.request.ctx.active == ""
  {
    if layer.Guarded? {
      match layer.guard
      case Platform => PlatformStaysInactive(inLambda, layer.secret, r);
      case Internal => InternalStaysInactive(inLambda, layer.secret, layer.binding, r);
      case Proxy => ProxyStaysInactive(inLambda, layer.secret, layer.binding, r);
      case Public =>
    }
  }

  /** Off the platform surface no nesting, and no module code, makes a delegation active. */
  lemma {:induction false} UnmarkedNeverActive(inLambda: bool, layers: seq<Layer>, r: Request, checked: bool)
    requires !r.ctx.surface && r.ctx.active == ""
    ensures var o := Serve(inLambda, layers, r, checked); o.Passed? ==> o.request.ctx.active == ""
    decreases |layers|
  {
    if layers != [] {
      StaysInactive(inLambda, layers[0], r);
      var o := Through(inLambda, layers[0], r);
      if o.Passed? {
        UnmarkedNeverActive(inLambda, layers[1..], o.request, checked || o.checked);
      }
    }
  }

  /** Nothing from which a delegation could still be made. */
  predicate Cleared(r: Request) {
    r.ctx.active == "" && r.ctx.pending == "" && r.headers.delegation == [] && r.headers.spellings == 0
  }

  predicate Boundary(layer: Layer, r: Request) {
    layer.Guarded? && (layer.guard.Internal? || (layer.guard.Proxy? && !r.ctx.surface))
  }

  lemma {:induction false} BoundaryClears(inLambda: bool, layer: Layer, r: Request)
    requires Boundary(layer, r)
    ensures var o := Through(inLambda, layer, r); o.Passed? ==> Cleared(o.request)
  {
  }

  lemma {:induction false} PlatformKeepsCleared(inLambda: bool, secret: Secret, r: Request)
    requires Cleared(r)
    ensures var o := PlatformAuth(inLambda, secret, r); o.Passed? ==> Cleared(o.request)
  {
  }

  lemma {:induction false} InternalKeepsCleared(inLambda: bool, secret: Secret, binding: Binding, r: Request)
    requires Cleared(r)
    ensures var o := InternalAuth(inLambda, secret, binding, r); o.Passed? ==> Cleared(o.request)
  {
  }

  lemma {:induction false} ProxyKeepsCleared(inLambda: bool, secret: Secret, binding: Binding, r: Request)
    requires Cleared(r)
    ensures var o := RequireProxy(inLambda, secret, binding, r); o.Passed? ==> Cleared(o.request)
  {
  }

  lemma {:induction false} KeepsCleared(inLambda: bool, layer: Layer, r: Request)
    requires layer.Guarded? && Cleared(r)
    ensures var o := Through(inLambda, layer, r); o.Passed? ==> Cleared(o.request)
  {
    if layer.Guarded? {
      match layer.guard
      case Platform => PlatformKeepsCleared(inLambda, layer.secret, r);
      case Internal => InternalKeepsCleared(inLambda, layer.secret, layer.binding, r);
      case Proxy => ProxyKeepsCleared(inLambda, layer.secret, layer.binding, r);
      case Public =>
    }
  }

  lemma {:induction false} StaysCleared(inLambda: bool, layers: seq<Layer>, r: Request, checked: bool)
    requires Cleared(r) && forall i :: 0 <= i < |layers| ==> layers[i].Guarded?
    ensures var o := Serve(inLambda, layers, r, checked); o.Passed? ==> Cleared(o.request)
    decreases |layers|
  {
    if layers != [] {
      KeepsCleared(inLambda, layers[0], r);
      var o := Through(inLambda, layers[0], r);
      if o.Passed? {
        StaysCleared(inLambda, layers[1..], o.request, checked || o.checked);
      }
    }
  }

  /** Once a Public or Internal boundary has run, no further nesting of guards brings a delegation back. */
  lemma {:induction false} NothingAfterBoundary(inLambda: bool, before: seq<Layer>, boundary: Layer, after: seq<Layer>, r: Request)
    requires forall i :: 0 <= i < |after| ==> after[i].Guarded?
    requires var o := Serve(inLambda, before, r, false); o.Passed? ==> Boundary(boundary, o.request)
    ensures var o := Serve(inLambda, before + ([boundary] + after), r, false); o.Passed? ==> Cleared(o.request)
  {
    ServeSplits(inLambda, before, [boundary] + after, r, false);
    var o := Serve(inLambda, before, r, false);
    if o.Passed? {
      BoundaryClears(inLambda, boundary, o.request);
      var b := Through(inLambda, boundary, o.request);
      assert ([boundary] + after)[1..] == after;
      if b.Passed? {
        StaysCleared(inLambda, after, b.request, o.checked || b.checked);
      }
    }
  }

  lemma {:induction false} ServeSplits(inLambda: bool, a: seq<Layer>, b: seq<Layer>, r: Request, checked: bool)
    ensures Serve(inLambda, a + b, r, checked) ==
              match Serve(inLambda, a, r, checked)
              case Rejected(status) => Rejected(status)
              case Passed(next, c) => Serve(inLambda, b, next, c)
    decreases |a|
  {
    if a == [] {
      assert a + b == b;
    } else {
      assert (a + b)[1..] == a[1..] + b;
      var o := Through(inLambda, a[0], r);
      if o.Passed? {
        ServeSplits(inLambda, a[1..], b, o.request, checked || o.checked);
      }
    }
  }

  // ---------------------------------------------------------------- the wire is not seen, and not invented

  predicate NoWire(r: Request) {
    r.headers.delegation == [] && r.headers.spellings == 0
  }

  lemma {:induction false} GuardStripsWire(inLambda: bool, layer: Layer, r: Request)
    requires layer.Guarded? && (!layer.guard.Public? || NoWire(r))
    ensures var o := Through(inLambda, layer, r); o.Passed? ==> NoWire(o.request)
  {
    match layer.guard
    case Platform =>
    case Internal =>
    case Proxy =>
    case Public =>
  }

  lemma {:induction false} GuardsKeepNoWire(inLambda: bool, layers: seq<Layer>, r: Request, checked: bool)
    requires NoWire(r) && forall i :: 0 <= i < |layers| ==> layers[i].Guarded?
    ensures var o := Serve(inLambda, layers, r, checked); o.Passed? ==> NoWire(o.request)
    decreases |layers|
  {
    if layers != [] {
      GuardStripsWire(inLambda, layers[0], r);
      var o := Through(inLambda, layers[0], r);
      if o.Passed? {
        GuardsKeepNoWire(inLambda, layers[1..], o.request, checked || o.checked);
      }
    }
  }

  /** Behind any of the three guards, and guards only after it, no handler sees the delegation or the invocation header. */
  lemma {:induction false} HandlersSeeNoWire(inLambda: bool, before: seq<Layer>, layer: Layer, after: seq<Layer>, r: Request)
    requires layer.Guarded? && !layer.guard.Public? && forall i :: 0 <= i < |after| ==> after[i].Guarded?
    ensures var o := Serve(inLambda, before + ([layer] + after), r, false); o.Passed? ==> NoWire(o.request)
  {
    ServeSplits(inLambda, before, [layer] + after, r, false);
    var o := Serve(inLambda, before, r, false);
    if o.Passed? {
      GuardStripsWire(inLambda, layer, o.request);
      var b := Through(inLambda, layer, o.request);
      assert ([layer] + after)[1..] == after;
      if b.Passed? {
        GuardsKeepNoWire(inLambda, after, b.request, o.checked || b.checked);
      }
    }
  }

  /** Every delegation a request carries, in its context or alone in a header, is one of these. */
  ghost predicate Within(vs: set<string>, r: Request) {
    && (r.ctx.active != "" ==> r.ctx.active in vs)
    && (r.ctx.pending != "" ==> r.ctx.pending in vs)
    && (|r.headers.delegation| == 1 ==> r.headers.delegation[0] in vs)
    && (|r.headers.invocations| == 1 && r.headers.invocations[0].Typed? ==>
          r.headers.invocations[0].invocation.delegation in vs)
  }

  lemma {:induction false} ConsumeWithin(vs: set<string>, r: Request, binding: Binding)
    requires Within(vs, r)
    ensures var c := ConsumeInvocation(r, binding); c.Consumed? ==> Within(vs, c.request)
  {
  }

  lemma {:induction false} AdmitWithin(vs: set<string>, r: Request)
    requires Within(vs, r)
    ensures AdmitTyped(r).Passed? ==> Within(vs, AdmitTyped(r).request)
    ensures AdmitClaims(r).Passed? ==> Within(vs, AdmitClaims(r).request)
  {
  }

  lemma {:induction false} ProxiedWithin(vs: set<string>, r: Request, typed: bool)
    requires Within(vs, r)
    ensures AdmitProxied(r, typed).Passed? ==> Within(vs, AdmitProxied(r, typed).request)
  {
  }

  lemma {:induction false} PlatformWithin(vs: set<string>, inLambda: bool, secret: Secret, r: Request)
    requires Within(vs, r)
    ensures var o := PlatformAuth(inLambda, secret, r); o.Passed? ==> Within(vs, o.request)
  {
    ConsumeWithin(vs, r, NO_BINDING);
    match ConsumeInvocation(r, NO_BINDING)
    case Refused =>
    case Consumed(trusted, _) => AdmitWithin(vs, trusted);
  }

  lemma {:induction false} InternalWithin(vs: set<string>, inLambda: bool, secret: Secret, binding: Binding, r: Request)
    requires Within(vs, r)
    ensures var o := InternalAuth(inLambda, secret, binding, r); o.Passed? ==> Within(vs, o.request)
  {
    ConsumeWithin(vs, r, ResolveBinding(r.ctx, binding));
  }

  lemma {:induction false} ProxyWithin(vs: set<string>, inLambda: bool, secret: Secret, binding: Binding, r: Request)
    requires Within(vs, r)
    ensures var o := RequireProxy(inLambda, secret, binding, r); o.Passed? ==> Within(vs, o.request)
  {
    ConsumeWithin(vs, r, ResolveBinding(r.ctx, binding));
    match ConsumeInvocation(r, ResolveBinding(r.ctx, binding))
    case Refused =>
    case Consumed(trusted, typed) => ProxiedWithin(vs, trusted, typed);
  }

  lemma {:induction false} NestingWithin(vs: set<string>, inLambda: bool, layers: seq<Layer>, r: Request, checked: bool)
    requires Within(vs, r) && forall i :: 0 <= i < |layers| ==> layers[i].Guarded?
    ensures var o := Serve(inLambda, layers, r, checked); o.Passed? ==> Within(vs, o.request)
    decreases |layers|
  {
    if layers != [] {
      var layer := layers[0];
      match layer.guard {
        case Platform => PlatformWithin(vs, inLambda, layer.secret, r);
        case Internal => InternalWithin(vs, inLambda, layer.secret, layer.binding, r);
        case Proxy => ProxyWithin(vs, inLambda, layer.secret, layer.binding, r);
        case Public =>
      }
      var o := Through(inLambda, layer, r);
      if o.Passed? {
        NestingWithin(vs, inLambda, layers[1..], o.request, checked || o.checked);
      }
    }
  }

  /** The delegations a request brings: the payload's, a lone header value, a typed invocation's. */
  function Brought(r: Request): set<string> {
    (if r.ctx.pending != "" then {r.ctx.pending} else {})
    + (if |r.headers.delegation| == 1 then {r.headers.delegation[0]} else {})
    + (if |r.headers.invocations| == 1 && r.headers.invocations[0].Typed?
       then {r.headers.invocations[0].invocation.delegation} else {})
  }

  /** No nesting of guards invents a delegation: what is active is one the request brought. */
  lemma {:induction false} ActiveWasBrought(inLambda: bool, layers: seq<Layer>, r: Request)
    requires Enters(r) && forall i :: 0 <= i < |layers| ==> layers[i].Guarded?
    ensures var o := Serve(inLambda, layers, r, false);
            o.Passed? && o.request.ctx.active != "" ==> o.request.ctx.active in Brought(r)
  {
    NestingWithin(Brought(r), inLambda, layers, r, false);
  }

  // ---------------------------------------------------------------- a Platform route

  /** Module.Platform: the surface mark, then the proxy guard, then PlatformAuth. */
  function PlatformRoute(inLambda: bool, secret: Secret, binding: Binding, r: Request): Outcome {
    var marked := r.(ctx := r.ctx.(surface := true));
    Serve(inLambda, [Guarded(Proxy, secret, binding), Guarded(Platform, secret, binding)], marked, false)
  }

  lemma {:induction false} TwoLayers(inLambda: bool, a: Layer, b: Layer, r: Request)
    ensures Serve(inLambda, [a, b], r, false) ==
              match Through(inLambda, a, r)
              case Rejected(status) => Rejected(status)
              case Passed(next, here) =>
                match Through(inLambda, b, next)
                case Rejected(status) => Rejected(status)
                case Passed(last, there) => Passed(last, here || there)
  {
    var rest := [b];
    assert [a, b][1..] == rest && rest[1..] == [];
    var o := Through(inLambda, a, r);
    if o.Passed? {
      var p := Through(inLambda, b, o.request);
      assert p.Passed? ==> Serve(inLambda, rest[1..], p.request, o.checked || p.checked) == Passed(p.request, o.checked || p.checked);
    }
  }

  /** What the proxy guard leaves of a proxied request on the platform surface. */
  lemma {:induction false} ProxyCaptures(secret: Secret, binding: Binding, r: Request)
    requires r.ctx.surface && !r.ctx.payloadTrust && r.ctx.identity.None? && r.headers.spellings == 0 && r.ctx.pending == ""
    requires secret.Expected? && secret.value != "" && Complete(r.headers.claims)
    ensures var o := RequireProxy(false, secret, binding, r);
            && (o.Passed? <==> Matches(r.headers, secret) && CapturePending(r).Some?)
            && (o.Passed? ==>
                  && o.request.ctx.surface && o.request.ctx.proxyTrust && o.request.ctx.identity == Some(r.headers.claims)
                  && o.request.ctx.pending == if r.headers.delegation == [] then "" else r.headers.delegation[0])
  {
  }

  /** What PlatformAuth does with an identity established by the proxy guard. */
  lemma {:induction false} PlatformActivates(secret: Secret, r: Request)
    requires r.ctx.surface && r.ctx.proxyTrust && r.ctx.identity.Some? && r.ctx.identity.value.appRole != ""
    ensures var o := PlatformAuth(false, secret, r);
            o.Passed? && o.request.ctx.identity == r.ctx.identity && o.request.ctx.active == r.ctx.pending
  {
  }

  /** Over HTTP, with the secret presented and a complete identity asserted, the handler has exactly the delegation sent. */
  lemma {:induction false} ProxiedPlatformRoute(secret: Secret, binding: Binding, r: Request)
    requires Enters(r) && !r.ctx.payloadTrust && r.ctx.identity.None? && r.headers.spellings == 0
    requires secret.Expected? && secret.value != "" && Complete(r.headers.claims)
    ensures var o := PlatformRoute(false, secret, binding, r);
            && (o.Passed? <==> Matches(r.headers, secret)
                               && (r.headers.delegation == [] || (|r.headers.delegation| == 1 && ValidTransport(r.headers.delegation[0]))))
            && (o.Passed? ==>
                  && o.request.ctx.identity == Some(r.headers.claims)
                  && o.request.ctx.active == if r.headers.delegation == [] then "" else r.headers.delegation[0])
  {
    var marked := r.(ctx := r.ctx.(surface := true));
    TwoLayers(false, Guarded(Proxy, secret, binding), Guarded(Platform, secret, binding), marked);
    ProxyCaptures(secret, binding, marked);
    var o := RequireProxy(false, secret, binding, marked);
    if o.Passed? {
      PlatformActivates(secret, o.request);
    }
  }

  /** From a trusted payload with a role, the handler has exactly the payload's delegation; headers are ignored. */
  lemma PayloadPlatformRoute(inLambda: bool, secret: Secret, binding: Binding, r: Request)
    requires Enters(r) && r.ctx.payloadTrust && r.ctx.identity.Some? && r.ctx.identity.value.appRole != ""
    ensures var o := PlatformRoute(inLambda, secret, binding, r);
            o.Passed? && o.request.ctx.identity == r.ctx.identity && o.request.ctx.active == r.ctx.pending
  {
    TwoLayers(inLambda, Guarded(Proxy, secret, binding), Guarded(Platform, secret, binding), r.(ctx := r.ctx.(surface := true)));
  }

  // ---------------------------------------------------------------- a typed invocation

  /**
   A request that presents the secret to a guard that compares it: no payload
   mark, and for PlatformAuth no identity with a role, lets it by without.
   */
  predicate Compared(inLambda: bool, guard: Guard, secret: Secret, r: Request) {
    && secret.Expected? && secret.value != "" && Presented(r.headers, secret.header) == secret.value
    && match guard
       case Platform => r.ctx.identity.None? || r.ctx.identity.value.appRole == ""
       case Internal => !r.ctx.payloadTrust
       case Proxy => !inLambda && !r.ctx.payloadTrust
       case Public => false
  }

  /** The binding a guard holds an invocation to: none for PlatformAuth, else its module's own, else the one on the request. */
  function Bound(guard: Guard, binding: Binding, r: Request): Binding {
    if guard.Platform? then Binding("", "")
    else if binding != Binding("", "") then binding
    else match r.ctx.binding case None => Binding("", "") case Some(b) => b
  }

  lemma BoundIs(guard: Guard, binding: Binding, r: Request)
    requires guard.Internal? || guard.Proxy?
    ensures Bound(guard, binding, r) == ResolveBinding(r.ctx, binding)
  {
  }

  /** Whether a header value is a well-shaped delegation: not empty, not too long, and without separators. */
  predicate Shaped(v: string) {
    1 <= |v| <= 4096 && forall c :: c in v ==> c !in ", \t\r\n"
  }

  lemma {:induction false} ShapedIs(v: string)
    ensures Shaped(v) <==> ValidTransport(v)
  {
    var separators := ", \t\r\n";
    assert separators[0] == ',' && separators[1] == ' ' && separators[2] == '\t' && separators[3] == '\r' && separators[4] == '\n';
    forall i | 0 <= i < |v|
      ensures v[i] in separators <==> v[i] == ',' || v[i] == ' ' || v[i] == '\t' || v[i] == '\r' || v[i] == '\n'
    {
    }
  }

  /**
   A request carries the invocation header more than once or unreadably, or
   carries one made for another method, path, body or module, or one the
   compatibility headers beside it contradict.
   */
  predicate BadInvocation(r: Request, b: Binding) {
    var h := r.headers;
    h.spellings > 0 &&
    (|| h.spellings > 1 || |h.invocations| != 1 || h.invocations[0].Undecodable?
     || var inv := h.invocations[0].invocation;
        || inv.occurrence.verb != r.occurrence.verb || inv.occurrence.path != r.occurrence.path
        || inv.occurrence.body != r.occurrence.body
        || (b.moduleId != "" && ModuleIds.Canonical(b.moduleId) != Some(inv.moduleId))
        || (b.moduleSlug != "" && inv.moduleSlug != b.moduleSlug)
        || (inv.delegation != "" && !Shaped(inv.delegation))
        || (h.delegation != [] && (inv.delegation == "" || h.delegation != [inv.delegation]))
        || (h.claims.userId != "" && h.claims.userId != inv.identity.userId)
        || (h.claims.appId != "" && h.claims.appId != inv.identity.appId)
        || (h.claims.appRole != "" && h.claims.appRole != inv.identity.appRole)
        || !inv.othersAgree)
  }

  /** After the secret, a guard refuses a request with 400 exactly for a bad invocation. */
  lemma {:induction false} BadInvocationExactly(inLambda: bool, guard: Guard, secret: Secret, binding: Binding, r: Request)
    requires Compared(inLambda, guard, secret, r)
    ensures Through(inLambda, Guarded(guard, secret, binding), r) == Rejected(400) <==> BadInvocation(r, Bound(guard, binding, r))
  {
    RefusedExactly(r, Bound(guard, binding, r));
    match guard
    case Platform => PlatformRefuses(inLambda, secret, r);
    case Internal =>
      BoundIs(guard, binding, r);
      InternalRefuses(inLambda, secret, binding, r);
    case Proxy =>
      BoundIs(guard, binding, r);
      ProxyRefuses(inLambda, secret, binding, r);
  }

  lemma {:induction false} RefusedExactly(r: Request, b: Binding)
    ensures ConsumeInvocation(r, b).Refused? <==> BadInvocation(r, b)
  {
    if |r.headers.invocations| == 1 && r.headers.invocations[0].Typed? {
      ShapedIs(r.headers.invocations[0].invocation.delegation);
    }
  }

  lemma {:induction false} PlatformRefuses(inLambda: bool, secret: Secret, r: Request)
    requires Compared(inLambda, Platform, secret, r)
    ensures PlatformAuth(inLambda, secret, r) == Rejected(400) <==> ConsumeInvocation(r, NO_BINDING).Refused?
  {
  }

  lemma {:induction false} InternalRefuses(inLambda: bool, secret: Secret, binding: Binding, r: Request)
    requires Compared(inLambda, Internal, secret, r)
    ensures InternalAuth(inLambda, secret, binding, r) == Rejected(400) <==> ConsumeInvocation(r, ResolveBinding(r.ctx, binding)).Refused?
  {
  }

  lemma {:induction false} ProxyRefuses(inLambda: bool, secret: Secret, binding: Binding, r: Request)
    requires Compared(inLambda, Proxy, secret, r)
    ensures RequireProxy(inLambda, secret, binding, r) == Rejected(400) <==> ConsumeInvocation(r, ResolveBinding(r.ctx, binding)).Refused?
  {
  }

  /** The one invocation a request carries. */
  predicate Carries(r: Request, inv: Invocation) {
    r.headers.spellings == 1 && r.headers.invocations == [Typed(inv)]
  }

  /**
   An invocation a guard does not refuse is believed: it alone says who the
   caller is, its delegation is the one held, and no header of the wire is left.
   */
  lemma {:induction false} TypedIsBelieved(inLambda: bool, guard: Guard, secret: Secret, binding: Binding, r: Request, inv: Invocation)
    requires Compared(inLambda, guard, secret, r) && Carries(r, inv)
    requires Through(inLambda, Guarded(guard, secret, binding), r) != Rejected(400)
    ensures var o := Through(inLambda, Guarded(guard, secret, binding), r);
            && (o.Passed? <==> guard.Platform? ==> inv.identity.userId != "" && inv.identity.appId != "" && inv.identity.appRole != "")
            && (o.Passed? ==>
                  && o.checked && o.request.ctx.identity == Some(inv.identity)
                  && o.request.ctx.active == (if guard.Platform? && r.ctx.surface then inv.delegation else "")
                  && o.request.ctx.pending == (if guard.Proxy? && r.ctx.surface then inv.delegation else "")
                  && o.request.headers == Headers(r.headers.token, r.headers.internal, Identity("", "", ""), [], 0, []))
  {
  }

  /** A platform route over HTTP with a typed invocation: who passes, as whom, and with which delegation. */
  lemma {:induction false} TypedPlatformRoute(secret: Secret, binding: Binding, r: Request, inv: Invocation)
    requires Enters(r) && !r.ctx.payloadTrust && Carries(r, inv)
    requires secret.Expected? && secret.value != "" && Presented(r.headers, secret.header) == secret.value
    ensures var o, b := PlatformRoute(false, secret, binding, r), Bound(Proxy, binding, r);
            && (o.Passed? <==>
                  && inv.occurrence == r.occurrence
                  && (b.moduleId == "" || ModuleIds.Canonical(b.moduleId) == Some(inv.moduleId))
                  && (b.moduleSlug == "" || b.moduleSlug == inv.moduleSlug)
                  && (inv.delegation == "" || Shaped(inv.delegation))
                  && (r.headers.delegation == [] || (inv.delegation != "" && r.headers.delegation == [inv.delegation]))
                  && LegacyClaimsAgree(r.headers.claims, inv.identity) && inv.othersAgree
                  && inv.identity.appRole != "")
            && (o.Passed? ==> o.checked && o.request.ctx.identity == Some(inv.identity) && o.request.ctx.active == inv.delegation)
  {
    var marked := r.(ctx := r.ctx.(surface := true));
    var layer := Guarded(Proxy, secret, binding);
    TwoLayers(false, layer, Guarded(Platform, secret, binding), marked);
    BadInvocationExactly(false, Proxy, secret, binding, marked);
    var o := RequireProxy(false, secret, binding, marked);
    if o != Rejected(400) {
      TypedIsBelieved(false, Proxy, secret, binding, marked, inv);
      ProxyTrusts(secret, binding, marked);
      if inv.identity.appRole != "" {
        PlatformActivates(secret, o.request);
      } else {
        NoRoleNoEntry(secret, o.request);
      }
    }
  }

  lemma {:induction false} ProxyTrusts(secret: Secret, binding: Binding, r: Request)
    requires Compared(false, Proxy, secret, r)
    ensures var o := RequireProxy(false, secret, binding, r);
            o.Passed? ==> o.request.ctx.proxyTrust && o.request.ctx.surface == r.ctx.surface
  {
  }

  /** Without a role and without claims PlatformAuth lets no one in. */
  lemma {:induction false} NoRoleNoEntry(secret: Secret, r: Request)
    requires secret.Expected? && !HasRole(r) && r.headers.claims.appRole == "" && r.headers.spellings == 0
    ensures PlatformAuth(false, secret, r).Rejected?
  {
  }

  // ---------------------------------------------------------------- what a checked secret means

  /** The layer compared the secret a request presents, and it was the expected one. */
  predicate Proves(layer: Layer, r: Request) {
    layer.Guarded? && Matches(r.headers, layer.secret) && layer.secret.value != ""
  }

  lemma {:induction false} CheckedHere(inLambda: bool, layer: Layer, r: Request)
    ensures var o := Through(inLambda, layer, r); o.Passed? && o.checked ==> Proves(layer, r)
  {
    if layer.Guarded? {
      match layer.guard
      case Platform =>
      case Internal =>
      case Proxy =>
      case Public =>
    }
  }

  /** The request as it reaches a layer proves itself there. */
  ghost predicate ProvenAt(inLambda: bool, layers: seq<Layer>, r: Request, i: nat)
    requires i < |layers|
  {
    var o := Serve(inLambda, layers[..i], r, false);
    o.Passed? && Proves(layers[i], o.request)
  }

  /** A request counts as checked only because some layer found the expected secret in it as it arrived there. */
  lemma {:induction false} CheckedMeansProven(inLambda: bool, layers: seq<Layer>, r: Request) returns (i: nat)
    requires var o := Serve(inLambda, layers, r, false); o.Passed? && o.checked
    ensures i < |layers| && ProvenAt(inLambda, layers, r, i)
    decreases |layers|
  {
    var n := |layers| - 1;
    var front, last := layers[..n], layers[n];
    assert layers == front + [last] && [last][1..] == [];
    ServeSplits(inLambda, front, [last], r, false);
    var o := Serve(inLambda, front, r, false);
    if o.checked {
      i := CheckedMeansProven(inLambda, front, r);
      assert layers[..i] == front[..i];
    } else {
      CheckedHere(inLambda, last, o.request);
      var b := Through(inLambda, last, o.request);
      assert Serve(inLambda, [last][1..], b.request, o.checked || b.checked) == Passed(b.request, o.checked || b.checked);
      i := n;
    }
  }

  predicate SameSecrets(a: Request, b: Request) {
    a.headers.token == b.headers.token && a.headers.internal == b.headers.internal && a.ctx.payloadTrust == b.ctx.payloadTrust
  }

  lemma {:induction false} KeepsSecrets(inLambda: bool, layer: Layer, r: Request)
    requires layer.Guarded?
    ensures var o := Through(inLambda, layer, r); o.Passed? ==> SameSecrets(o.request, r)
  {
    KeepsMarks(inLambda, layer, r);
    match layer.guard
    case Platform =>
    case Internal =>
    case Proxy =>
    case Public =>
  }

  lemma {:induction false} NestingKeepsSecrets(inLambda: bool, layers: seq<Layer>, r: Request, checked: bool)
    requires forall i :: 0 <= i < |layers| ==> layers[i].Guarded?
    ensures var o := Serve(inLambda, layers, r, checked); o.Passed? ==> SameSecrets(o.request, r)
    decreases |layers|
  {
    if layers != [] {
      KeepsSecrets(inLambda, layers[0], r);
      var o := Through(inLambda, layers[0], r);
      if o.Passed? {
        NestingKeepsSecrets(inLambda, layers[1..], o.request, checked || o.checked);
      }
    }
  }

  /** Behind guards alone, an active delegation came with a trusted payload or with a secret one of them expects. */
  lemma {:induction false} ActiveMeansProven(inLambda: bool, layers: seq<Layer>, r: Request)
    requires Enters(r) && forall i :: 0 <= i < |layers| ==> layers[i].Guarded?
    ensures var o := Serve(inLambda, layers, r, false);
            o.Passed? && o.request.ctx.active != "" ==> r.ctx.payloadTrust || exists i :: 0 <= i < |layers| && Proves(layers[i], r)
  {
    var o := Serve(inLambda, layers, r, false);
    if o.Passed? && o.request.ctx.active != "" {
      ActiveMeansTrusted(inLambda, layers, r);
      NestingKeepsSecrets(inLambda, layers, r, false);
      if o.checked {
        var i := CheckedMeansProven(inLambda, layers, r);
        NestingKeepsSecrets(inLambda, layers[..i], r, false);
        assert Proves(layers[i], r);
      }
    }
  }

  /** A guard that has a secret to compare, or must not go without one. */
  predicate Demands(inLambda: bool, layer: Layer) {
    && layer.Guarded?
    && match layer.guard
       case Internal => inLambda || !layer.secret.Unconfigured?
       case Proxy => !inLambda && !layer.secret.Unconfigured?
       case _ => false
  }

  lemma {:induction false} DemandIsMet(inLambda: bool, layer: Layer, r: Request)
    requires Demands(inLambda, layer) && !r.ctx.payloadTrust && Through(inLambda, layer, r).Passed?
    ensures Proves(layer, r)
  {
  }

  /** Without a payload mark, no nesting of guards lets a request through that fails what one of them demands. */
  lemma {:induction false} UnprovenIsRejected(inLambda: bool, layers: seq<Layer>, r: Request, i: nat)
    requires i < |layers| && forall k :: 0 <= k < |layers| ==> layers[k].Guarded?
    requires !r.ctx.payloadTrust && Demands(inLambda, layers[i]) && !Proves(layers[i], r)
    ensures Serve(inLambda, layers, r, false).Rejected?
  {
    var front, rest := layers[..i], layers[i..];
    assert layers == front + rest;
    ServeSplits(inLambda, front, rest, r, false);
    NestingKeepsSecrets(inLambda, front, r, false);
    var o := Serve(inLambda, front, r, false);
    if o.Passed? && Through(inLambda, layers[i], o.request).Passed? {
      DemandIsMet(inLambda, layers[i], o.request);
    }
  }

  // ---------------------------------------------------------------- identity

  predicate LocalBypass(inLambda: bool, layer: Layer) {
    layer.Guarded? && layer.guard.Platform? && layer.secret.Unconfigured? && !inLambda
  }

  lemma {:induction false} UncheckedStep(inLambda: bool, layer: Layer, r: Request)
    requires layer.Guarded?
    ensures var o := Through(inLambda, layer, r);
            o.Passed? && !o.checked && o.request.ctx.identity != r.ctx.identity ==>
              LocalBypass(inLambda, layer) && o.request.ctx.identity == Some(LOCAL_ADMIN)
  {
    match layer.guard
    case Platform =>
    case Internal =>
    case Proxy =>
    case Public =>
  }

  lemma {:induction false} CheckedStays(inLambda: bool, layers: seq<Layer>, r: Request)
    ensures var o := Serve(inLambda, layers, r, true); o.Passed? ==> o.checked
    decreases |layers|
  {
    if layers != [] {
      var o := Through(inLambda, layers[0], r);
      if o.Passed? {
        CheckedStays(inLambda, layers[1..], o.request);
      }
    }
  }

  /** Without a checked secret no nesting of guards takes an identity from headers; only the local bypass of PlatformAuth sets one. */
  lemma {:induction false} UncheckedKeepsIdentity(inLambda: bool, layers: seq<Layer>, r: Request)
    requires forall i :: 0 <= i < |layers| ==> layers[i].Guarded?
    ensures var o := Serve(inLambda, layers, r, false);
            o.Passed? && !o.checked && o.request.ctx.identity != r.ctx.identity ==>
              o.request.ctx.identity == Some(LOCAL_ADMIN) && exists i :: 0 <= i < |layers| && LocalBypass(inLambda, layers[i])
    decreases |layers|
  {
    if layers != [] {
      UncheckedStep(inLambda, layers[0], r);
      var o := Through(inLambda, layers[0], r);
      if o.Passed? {
        if o.checked {
          CheckedStays(inLambda, layers[1..], o.request);
        } else {
          UncheckedKeepsIdentity(inLambda, layers[1..], o.request);
          assert forall i :: 0 <= i < |layers| - 1 ==> layers[1..][i] == layers[i + 1];
        }
      }
    }
  }

  predicate HasRole(r: Request) {
    r.ctx.identity.Some? && r.ctx.identity.value.appRole != ""
  }

  lemma {:induction false} PlatformPassed(inLambda: bool, layer: Layer, r: Request)
    requires layer.Guarded? && layer.guard.Platform? && !LocalBypass(inLambda, layer) && !HasRole(r)
    requires Through(inLambda, layer, r).Passed?
    ensures Proves(layer, r)
  {
  }

  /** Past a PlatformAuth, and with no local bypass around, a request that came without a role proved itself to some guard. */
  lemma {:induction false} PlatformNeedsProof(inLambda: bool, layers: seq<Layer>, r: Request, i: nat)
    requires forall k :: 0 <= k < |layers| ==> layers[k].Guarded? && !LocalBypass(inLambda, layers[k])
    requires i < |layers| && layers[i].guard.Platform? && !HasRole(r)
    ensures Serve(inLambda, layers, r, false).Passed? ==> exists k :: 0 <= k < |layers| && Proves(layers[k], r)
  {
    var front, rest := layers[..i], layers[i..];
    assert layers == front + rest;
    ServeSplits(inLambda, front, rest, r, false);
    var o := Serve(inLambda, front, r, false);
    if o.Passed? && Through(inLambda, layers[i], o.request).Passed? {
      if o.checked {
        var k := CheckedMeansProven(inLambda, front, r);
        assert layers[k] == front[k];
        NestingKeepsSecrets(inLambda, front[..k], r, false);
        assert Proves(layers[k], r);
      } else {
        UncheckedKeepsIdentity(inLambda, front, r);
        PlatformPassed(inLambda, layers[i], o.request);
        NestingKeepsSecrets(inLambda, front, r, false);
        assert Proves(layers[i], r);
      }
    }
  }

  /** A guard that leaves an identity alone: any but PlatformAuth, which wants a role. */
  predicate RespectsIdentity(layer: Layer, id: Identity) {
    layer.Guarded? && (layer.guard.Platform? ==> id.appRole != "")
  }

  lemma {:induction false} PresetStep(inLambda: bool, layer: Layer, r: Request)
    requires r.ctx.identity.Some? && r.headers.spellings == 0 && RespectsIdentity(layer, r.ctx.identity.value)
    ensures var o := Through(inLambda, layer, r);
            o.Passed? ==> o.request.ctx.identity == r.ctx.identity && o.request.headers.spellings == 0
  {
    match layer.guard
    case Platform =>
    case Internal =>
    case Proxy =>
    case Public =>
  }

  /** An identity already there survives every nesting of guards, if it has a role or none of them is PlatformAuth, unless a typed invocation replaces it. */
  lemma {:induction false} PresetIdentityStays(inLambda: bool, layers: seq<Layer>, r: Request, checked: bool)
    requires r.ctx.identity.Some? && r.headers.spellings == 0
    requires forall i :: 0 <= i < |layers| ==> RespectsIdentity(layers[i], r.ctx.identity.value)
    ensures var o := Serve(inLambda, layers, r, checked); o.Passed? ==> o.request.ctx.identity == r.ctx.identity
    decreases |layers|
  {
    if layers != [] {
      PresetStep(inLambda, layers[0], r);
      var o := Through(inLambda, layers[0], r);
      if o.Passed? {
        PresetIdentityStays(inLambda, layers[1..], o.request, checked || o.checked);
      }
    }
  }

  const NO_CLAIMS := Identity("", "", "")

  /** The identity a request's claims stand for, once they are believed. */
  function Claimed(r: Request, believed: bool): Option<Identity> {
    if believed && r.headers.claims != NO_CLAIMS then Some(r.headers.claims) else None
  }

  lemma {:induction false} ClaimsStep(inLambda: bool, layer: Layer, r: Request)
    requires layer.Guarded? && !layer.guard.Platform?
    requires r.ctx.identity.None? && r.headers.spellings == 0
    ensures var o := Through(inLambda, layer, r);
            o.Passed? ==>
              && o.request.ctx.identity == Claimed(r, o.checked)
              && o.request.headers.claims == r.headers.claims && o.request.headers.spellings == 0
  {
    match layer.guard
    case Internal =>
    case Proxy =>
    case Public =>
  }

  /** Behind proxy and internal guards the claims are promoted as they are exactly when a secret was checked, and empty ones mint nothing. */
  lemma {:induction false} ProvenClaimsArePromoted(inLambda: bool, layers: seq<Layer>, r: Request)
    requires forall i :: 0 <= i < |layers| ==> layers[i].Guarded? && !layers[i].guard.Platform?
    requires r.ctx.identity.None? && r.headers.spellings == 0
    ensures var o := Serve(inLambda, layers, r, false); o.Passed? ==> o.request.ctx.identity == Claimed(r, o.checked)
    decreases |layers|
  {
    if layers != [] {
      ClaimsStep(inLambda, layers[0], r);
      var o := Through(inLambda, layers[0], r);
      if o.Passed? {
        if o.checked {
          BelievedStays(inLambda, layers[1..], o.request);
        } else {
          ProvenClaimsArePromoted(inLambda, layers[1..], o.request);
        }
      }
    }
  }

  lemma {:induction false} BelievedStays(inLambda: bool, layers: seq<Layer>, r: Request)
    requires forall i :: 0 <= i < |layers| ==> layers[i].Guarded? && !layers[i].guard.Platform?
    requires r.ctx.identity == Claimed(r, true) && r.headers.spellings == 0
    ensures var o := Serve(inLambda, layers, r, true); o.Passed? ==> o.checked && o.request.ctx.identity == r.ctx.identity
    decreases |layers|
  {
    if layers != [] {
      var o := Through(inLambda, layers[0], r);
      if r.ctx.identity.Some? {
        PresetStep(inLambda, layers[0], r);
        CheckedStays(inLambda, layers, r);
        PresetIdentityStays(inLambda, layers, r, true);
      } else {
        ClaimsStep(inLambda, layers[0], r);
        if o.Passed? {
          BelievedStays(inLambda, layers[1..], o.request);
        }
      }
    }
  }
}
