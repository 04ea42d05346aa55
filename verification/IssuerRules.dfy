/** The rules a certification path has to obey, spelled out on the fields of its
    certificates, and that the path builder's own checks amount to exactly them. */
module IssuerRules {
  import opened Basics
  import opened Certificates

  /** A certificate that is no anchor may carry no constraint the builder cannot apply. */
  ghost predicate Applicable(c: Cert) {
    c.extensions.Some? ==>
      c.extensions.value.profile.Some?
      && var p := c.extensions.value.profile.value;
         !p.nameConstraints && (p.extendedKeyUsage ==> !p.constraints.ca)
  }

  /** A CA certificate, not a CA certifying itself under its own name. */
  ghost predicate SubordinateCa(c: Cert) {
    && c.issuer != c.subject
    && c.extensions.Some? && c.extensions.value.profile.Some?
    && c.extensions.value.profile.value.constraints.ca
  }

  /** What an issuer that is no anchor has to say about itself. */
  ghost predicate MayIssue(c: Cert, below: nat) {
    && c.extensions.Some? && c.extensions.value.profile.Some?
    && var p := c.extensions.value.profile.value;
       && p.constraints.present && p.constraints.ca && p.constraints.critical
       && p.keyCertSign && !p.nameConstraints && !p.extendedKeyUsage
       && (p.constraints.pathLen.Some? ==> below <= p.constraints.pathLen.value)
  }

  /** `issuer` issued `child`: names chain, the signature verifies, the issuer is
      valid at `t`, and unless it is approved as it stands it may issue. */
  ghost predicate Issued(env: Env, child: Cert, issuer: Cert, t: int, below: nat, approved: bool) {
    && child.issuer == issuer.subject
    && env.signedBy(child, issuer)
    && issuer.notBefore <= t && t <= issuer.notAfter
    && (approved || MayIssue(issuer, below))
  }

  lemma LinkIsIssued(env: Env, child: Cert, issuer: Cert, t: int, below: nat, approved: bool)
    ensures LinkOk(env, child, issuer, t, below, approved) <==> Issued(env, child, issuer, t, below, approved)
  {
  }

  lemma ProfileIsApplicable(c: Cert)
    ensures NonAnchorProfile(c).Some? <==> Applicable(c)
  {
  }

  /** A certificate that parses and issued the child, as an anchor or by the rules. */
  ghost predicate Fits(env: Env, child: Cert, d: Der, t: int, below: nat, anchors: seq<Der>) {
    env.parse(d).Some? && Issued(env, child, env.parse(d).value, t, below, d in anchors)
  }
}
