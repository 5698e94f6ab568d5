/**
 Rotating the signing keys of a fleet of replicas while they issue and verify tokens. Each replica is
 reconfigured on its own, any number of rotations may overlap, and time passes at will.
 */
module KeyRotation {
  import opened Prelude
  import opened LdapIdentity
  import opened LdapTokens

  datatype Issued = Issued(raw: Raw, username: string, groups: seq<string>, signer: Tokens, at: int)

  /** now is the clock all replicas share, in nanoseconds. */
  datatype Fleet = Fleet(now: int, replicas: map<nat, Config>, issued: seq<Issued>)

  datatype Step =
    | Pass(nanoseconds: nat)
    | Join(r: nat, from: nat)
    | Login(r: nat, username: string, groups: seq<string>, encodedLength: nat)
    | Distribute(r: nat, id: string, public: PublicKey)
    | Activate(r: nat, id: string, private: PrivateKey)
    | Retire(r: nat, id: string)

  /** Every replica's configuration loads, and all agree on issuer, audience and lifetime. */
  ghost predicate Running(s: Fleet) {
    && s.now >= 0
    && (forall r | r in s.replicas :: Loadable(s.replicas[r]) && Usable(Loaded(s.replicas[r])))
    && (forall p, q | p in s.replicas && q in s.replicas ::
          s.replicas[p].issuer == s.replicas[q].issuer && s.replicas[p].audience == s.replicas[q].audience)
  }

  predicate Trusts(cfg: Config, id: string, public: PublicKey) {
    Loadable(cfg) && id in TrustedKeys(cfg) && TrustedKeys(cfg)[id] == public
  }

  predicate TrustsSigner(cfg: Config, signer: Config) {
    signer.signingPrivateKey.Some? && Trusts(cfg, signer.signingKeyID, PublicOf(signer.signingPrivateKey.value))
  }

  predicate Lapsed(i: Issued, now: int) {
    (i.at / SECOND + i.signer.ttl) * SECOND <= now
  }

  /** The documented procedure: when a step may be taken. */
  ghost predicate Allowed(s: Fleet, step: Step) {
    match step
    case Pass(_) => true
    case Join(r, from) => from in s.replicas && r !in s.replicas
    case Login(r, _, _, _) => r in s.replicas
    // A new public key goes out under an ID that names no other key.
    case Distribute(r, id, public) =>
      && r in s.replicas && id != ""
      && forall q | q in s.replicas :: Loadable(s.replicas[q]) && (id in TrustedKeys(s.replicas[q]) ==> TrustedKeys(s.replicas[q])[id] == public)
    // A key is activated only once every replica can verify it.
    case Activate(r, id, private) =>
      && r in s.replicas && id != ""
      && forall q | q in s.replicas :: Trusts(s.replicas[q], id, PublicOf(private))
    // A key is removed only after the last token issued with it has expired.
    case Retire(r, id) =>
      && r in s.replicas
      && (forall q | q in s.replicas :: s.replicas[q].signingKeyID != id)
      && (forall i | i in s.issued :: i.signer.keyID == id ==> Lapsed(i, s.now))
  }

  function Distributed(cfg: Config, id: string, public: PublicKey): Config {
    cfg.(verificationKeys := cfg.verificationKeys[id := Some(public)])
  }

  /** The new key signs; the retiring public key stays among the verification keys. */
  function Activated(cfg: Config, id: string, private: PrivateKey): Config
    requires cfg.signingPrivateKey.Some?
  {
    cfg.(signingKeyID := id, signingPrivateKey := Some(private),
         verificationKeys := cfg.verificationKeys[cfg.signingKeyID := Some(PublicOf(cfg.signingPrivateKey.value))])
  }

  function Retired(cfg: Config, id: string): Config {
    cfg.(verificationKeys := cfg.verificationKeys - {id})
  }

  ghost function Next(s: Fleet, step: Step): Fleet
    requires Running(s) && Allowed(s, step)
  {
    match step
    case Pass(d) => s.(now := s.now + d)
    case Join(r, from) => s.(replicas := s.replicas[r := s.replicas[from]])
    case Login(r, username, groups, encodedLength) =>
      var t := Loaded(s.replicas[r]);
      if ValidIdentities(username, groups) && encodedLength <= MAX_TOKEN_BYTES
      then s.(issued := s.issued + [Issued(IssuedToken(t, username, groups, s.now), username, groups, t, s.now)])
      else s
    case Distribute(r, id, public) => s.(replicas := s.replicas[r := Distributed(s.replicas[r], id, public)])
    case Activate(r, id, private) => s.(replicas := s.replicas[r := Activated(s.replicas[r], id, private)])
    case Retire(r, id) => s.(replicas := s.replicas[r := Retired(s.replicas[r], id)])
  }

  /** Whatever signs now, and whatever signed a token that still lives, is trusted everywhere. */
  ghost predicate Covered(s: Fleet) {
    && (forall p, q | p in s.replicas && q in s.replicas ::
          TrustsSigner(s.replicas[q], s.replicas[p]))
    && (forall i, q | i in s.issued && q in s.replicas ::
          Lapsed(i, s.now) || Trusts(s.replicas[q], i.signer.keyID, PublicOf(i.signer.private)))
  }

  ghost predicate Sound(s: Fleet) {
    && (forall i | i in s.issued ::
          && Usable(i.signer) && 0 <= i.at <= s.now && ValidIdentities(i.username, i.groups)
          && i.raw == IssuedToken(i.signer, i.username, i.groups, i.at))
    && (forall i, q | i in s.issued && q in s.replicas ::
          i.signer.issuer == s.replicas[q].issuer && i.signer.audience == s.replicas[q].audience)
  }

  ghost predicate Invariant(s: Fleet) {
    Running(s) && Covered(s) && Sound(s)
  }

  /** A reconfigured replica still trusts everything it trusted, except a key it retires. */
  lemma Reconfigured(cfg: Config, step: Step)
    requires Loadable(cfg) && Usable(Loaded(cfg))
    requires step.Distribute? ==> step.id in TrustedKeys(cfg) ==> TrustedKeys(cfg)[step.id] == step.public
    requires step.Activate? ==> step.id != "" && Trusts(cfg, step.id, PublicOf(step.private))
    requires step.Retire? ==> step.id != cfg.signingKeyID
    ensures step.Distribute? ==>
      var c := Distributed(cfg, step.id, step.public);
      Loadable(c) && Usable(Loaded(c)) && TrustedKeys(c) == TrustedKeys(cfg)[step.id := step.public]
    ensures step.Activate? ==>
      var c := Activated(cfg, step.id, step.private);
      Loadable(c) && Usable(Loaded(c)) && TrustedKeys(c) == TrustedKeys(cfg)
    ensures step.Retire? ==>
      var c := Retired(cfg, step.id);
      Loadable(c) && Usable(Loaded(c)) && TrustedKeys(c) == TrustedKeys(cfg) - {step.id}
  {
  }

  /** A replica may take any configuration that trusts all that still counts, if all trust its signing key. */
  lemma ReplaceKeeps(s: Fleet, r: nat, cfg: Config)
    requires Invariant(s) && r in s.replicas
    requires Loadable(cfg) && Usable(Loaded(cfg))
    requires cfg.issuer == s.replicas[r].issuer && cfg.audience == s.replicas[r].audience
    requires forall q | q in s.replicas :: TrustsSigner(s.replicas[q], cfg) && TrustsSigner(cfg, s.replicas[q])
    requires forall i | i in s.issued :: Lapsed(i, s.now) || Trusts(cfg, i.signer.keyID, PublicOf(i.signer.private))
    ensures Invariant(s.(replicas := s.replicas[r := cfg]))
  {
    assert TrustsSigner(cfg, cfg);
  }

  lemma LoginKeeps(s: Fleet, step: Step)
    requires Invariant(s) && Allowed(s, step) && step.Login?
    ensures Invariant(Next(s, step))
  {
    var t := Loaded(s.replicas[step.r]);
    forall q | q in s.replicas
      ensures Trusts(s.replicas[q], t.keyID, PublicOf(t.private))
    {
      assert TrustsSigner(s.replicas[q], s.replicas[step.r]);
    }
  }

  lemma JoinKeeps(s: Fleet, step: Step)
    requires Invariant(s) && Allowed(s, step) && step.Join?
    ensures Invariant(Next(s, step))
  {
    var s' := Next(s, step);
    assert Running(s');
    assert Covered(s') by {
      forall p, q | p in s'.replicas && q in s'.replicas
        ensures TrustsSigner(s'.replicas[q], s'.replicas[p])
      {
        assert TrustsSigner(s.replicas[if q == step.r then step.from else q], s.replicas[if p == step.r then step.from else p]);
      }
    }
  }

  lemma DistributeKeeps(s: Fleet, step: Step)
    requires Invariant(s) && Allowed(s, step) && step.Distribute?
    ensures Invariant(Next(s, step))
  {
    Reconfigured(s.replicas[step.r], step);
    var cfg := Distributed(s.replicas[step.r], step.id, step.public);
    forall q | q in s.replicas
      ensures s.replicas[q].signingKeyID in TrustedKeys(cfg)
    {
      assert TrustsSigner(s.replicas[step.r], s.replicas[q]);
    }
    SignersStayTrusted(s, step.r, cfg);
    ReplaceKeeps(s, step.r, cfg);
  }

  lemma ActivateKeeps(s: Fleet, step: Step)
    requires Invariant(s) && Allowed(s, step) && step.Activate?
    ensures Invariant(Next(s, step))
  {
    Reconfigured(s.replicas[step.r], step);
    var cfg := Activated(s.replicas[step.r], step.id, step.private);
    forall q | q in s.replicas
      ensures TrustsSigner(cfg, s.replicas[q])
    {
      assert TrustsSigner(s.replicas[step.r], s.replicas[q]);
    }
    ReplaceKeeps(s, step.r, cfg);
  }

  lemma RetireKeeps(s: Fleet, step: Step)
    requires Invariant(s) && Allowed(s, step) && step.Retire?
    ensures Invariant(Next(s, step))
  {
    Reconfigured(s.replicas[step.r], step);
    var cfg := Retired(s.replicas[step.r], step.id);
    forall q | q in s.replicas
      ensures s.replicas[q].signingKeyID in TrustedKeys(cfg)
    {
      assert TrustsSigner(s.replicas[step.r], s.replicas[q]);
    }
    SignersStayTrusted(s, step.r, cfg);
    ReplaceKeeps(s, step.r, cfg);
  }

  lemma StepKeeps(s: Fleet, step: Step)
    requires Invariant(s) && Allowed(s, step)
    ensures Invariant(Next(s, step))
  {
    match step
    case Pass(_) =>
    case Join(_, _) => JoinKeeps(s, step);
    case Login(_, _, _, _) => LoginKeeps(s, step);
    case Distribute(_, _, _) => DistributeKeeps(s, step);
    case Activate(_, _, _) => ActivateKeeps(s, step);
    case Retire(_, _) => RetireKeeps(s, step);
  }

  lemma SignersStayTrusted(s: Fleet, r: nat, cfg: Config)
    requires Invariant(s) && r in s.replicas && Loadable(cfg)
    requires cfg.signingKeyID == s.replicas[r].signingKeyID && cfg.signingPrivateKey == s.replicas[r].signingPrivateKey
    requires forall q | q in s.replicas :: s.replicas[q].signingKeyID in TrustedKeys(cfg)
    requires forall id | id in TrustedKeys(cfg) && id in TrustedKeys(s.replicas[r]) :: TrustedKeys(cfg)[id] == TrustedKeys(s.replicas[r])[id]
    ensures forall q | q in s.replicas :: TrustsSigner(s.replicas[q], cfg) && TrustsSigner(cfg, s.replicas[q])
  {
    forall q | q in s.replicas
      ensures TrustsSigner(s.replicas[q], cfg) && TrustsSigner(cfg, s.replicas[q])
    {
      assert TrustsSigner(s.replicas[q], s.replicas[r]);
      assert TrustsSigner(s.replicas[r], s.replicas[q]);
    }
  }

  /** Every step of the run is allowed where it is taken. */
  ghost predicate Procedure(s: Fleet, steps: seq<Step>)
    requires Invariant(s)
    decreases |steps|
  {
    steps == [] ||
    (Allowed(s, steps[0]) && (StepKeeps(s, steps[0]); Procedure(Next(s, steps[0]), steps[1..])))
  }

  ghost function Run(s: Fleet, steps: seq<Step>): (e: Fleet)
    requires Invariant(s) && Procedure(s, steps)
    ensures Invariant(e)
    decreases |steps|
  {
    if steps == [] then s
    else
      StepKeeps(s, steps[0]);
      Run(Next(s, steps[0]), steps[1..])
  }

  /** A fleet before its first login, all replicas on the same configuration. */
  ghost predicate Fresh(s: Fleet) {
    && Running(s) && s.issued == []
    && forall p, q | p in s.replicas && q in s.replicas :: s.replicas[p] == s.replicas[q]
  }

  lemma FreshIsFine(s: Fleet)
    requires Fresh(s)
    ensures Invariant(s)
  {
  }

  /**
   Over any run of the procedure every token issued so far is accepted by every replica, with the same
   user and groups, as long as it has not expired.
   */
  lemma RotationIsInvisible(s: Fleet, steps: seq<Step>, i: Issued, q: nat)
    requires Fresh(s) && (FreshIsFine(s); Procedure(s, steps))
    requires var e := Run(s, steps); i in e.issued && q in e.replicas && !Lapsed(i, e.now)
    ensures var e := Run(s, steps);
      && Loadable(e.replicas[q])
      && Verdict(Loaded(e.replicas[q]), i.raw, e.now) == Ok(Credential(i.username, i.groups))
  {
    var e := Run(s, steps);
    VerifyInvertsIssue(i.signer, Loaded(e.replicas[q]), i.username, i.groups, i.at, e.now);
  }

  /** Each rule of the procedure is needed: breaking it makes some replica reject a token that still lives. */
  lemma BrokenRules(s: Fleet, r: nat, q: nat, i: Issued)
    requires Invariant(s) && r in s.replicas && q in s.replicas && i in s.issued && !Lapsed(i, s.now)
    // The key is retired while a token of it lives.
    ensures i.signer.keyID != s.replicas[r].signingKeyID ==>
      Verdict(Loaded(Retired(s.replicas[r], i.signer.keyID)), i.raw, s.now) == Err(Unauthenticated)
    // A key is activated at r before q can verify it.
    ensures forall id: string, private: PrivateKey ::
      id != "" && Loadable(Activated(s.replicas[r], id, private)) && !Trusts(s.replicas[q], id, PublicOf(private)) ==>
        var t := Loaded(Activated(s.replicas[r], id, private));
        Verdict(Loaded(s.replicas[q]), IssuedToken(t, i.username, i.groups, s.now), s.now) == Err(Unauthenticated)
  {
    if i.signer.keyID != s.replicas[r].signingKeyID {
      Reconfigured(s.replicas[r], Retire(r, i.signer.keyID));
      VerifyInvertsIssue(i.signer, Loaded(Retired(s.replicas[r], i.signer.keyID)), i.username, i.groups, i.at, s.now);
    }
    forall id: string, private: PrivateKey | id != "" && Loadable(Activated(s.replicas[r], id, private)) && !Trusts(s.replicas[q], id, PublicOf(private))
      ensures var t := Loaded(Activated(s.replicas[r], id, private));
        Verdict(Loaded(s.replicas[q]), IssuedToken(t, i.username, i.groups, s.now), s.now) == Err(Unauthenticated)
    {
      VerifyInvertsIssue(Loaded(Activated(s.replicas[r], id, private)), Loaded(s.replicas[q]), i.username, i.groups, s.now, s.now);
    }
  }

  // ---- What each step does, and that a rotation can be finished ---------------

  /** A token has lapsed exactly when a replica that trusts its key reports it as expired; until then it accepts it. */
  lemma LapsedMeansExpired(i: Issued, v: Tokens, now: int)
    requires Usable(i.signer) && ValidIdentities(i.username, i.groups) && 0 <= i.at <= now
    requires i.raw == IssuedToken(i.signer, i.username, i.groups, i.at)
    requires v.issuer == i.signer.issuer && v.audience == i.signer.audience
    requires i.signer.keyID in v.keys && v.keys[i.signer.keyID] == PublicOf(i.signer.private)
    ensures Lapsed(i, now) <==> Verdict(v, i.raw, now) == Err(TokenExpired)
    ensures !Lapsed(i, now) <==> Verdict(v, i.raw, now) == Ok(Credential(i.username, i.groups))
  {
    VerifyInvertsIssue(i.signer, v, i.username, i.groups, i.at, now);
  }

  function KeysOf(s: Fleet, r: nat): map<string, PublicKey>
    requires r in s.replicas && Loadable(s.replicas[r])
  {
    TrustedKeys(s.replicas[r])
  }

  /** What a step does to the replica it is about, and that it leaves all others as they are. */
  lemma StepTakesEffect(s: Fleet, step: Step)
    requires Invariant(s) && Allowed(s, step)
    ensures var e := Next(s, step);
      && (step.Pass? ==> e == s.(now := s.now + step.nanoseconds))
      && (!step.Pass? ==> e.now == s.now && step.r in e.replicas && e.replicas - {step.r} == s.replicas - {step.r})
      && (step.Login? && ValidIdentities(step.username, step.groups) && step.encodedLength <= MAX_TOKEN_BYTES ==>
            var t := Loaded(s.replicas[step.r]);
            e.issued == s.issued + [Issued(IssuedToken(t, step.username, step.groups, s.now), step.username, step.groups, t, s.now)])
      && (!step.Login? ==> e.issued == s.issued)
      && (step.Join? ==> e.replicas[step.r] == s.replicas[step.from])
    ensures var e := Next(s, step);
      && (step.Distribute? ==> Loadable(e.replicas[step.r]) && KeysOf(e, step.r) == KeysOf(s, step.r)[step.id := step.public])
      && (step.Activate? ==>
            && e.replicas[step.r].signingKeyID == step.id && e.replicas[step.r].signingPrivateKey == Some(step.private)
            && Loadable(e.replicas[step.r]) && KeysOf(e, step.r) == KeysOf(s, step.r))
      && (step.Retire? ==> Loadable(e.replicas[step.r]) && KeysOf(e, step.r) == KeysOf(s, step.r) - {step.id})
  {
    hide IssuedToken, ValidIdentities, Sound, TrustedKeys, Loaded, Usable, Distributed, Activated, Retired;
    if step.Distribute? || step.Activate? || step.Retire? {
      ReplicaReconfigured(s, step);
    }
  }

  lemma ReplicaReconfigured(s: Fleet, step: Step)
    requires Invariant(s) && Allowed(s, step) && (step.Distribute? || step.Activate? || step.Retire?)
    ensures var cfg := s.replicas[step.r];
      && Loadable(cfg)
      && (step.Distribute? ==>
            var c := Distributed(cfg, step.id, step.public);
            Loadable(c) && TrustedKeys(c) == TrustedKeys(cfg)[step.id := step.public])
      && (step.Activate? ==>
            var c := Activated(cfg, step.id, step.private);
            && Loadable(c) && TrustedKeys(c) == TrustedKeys(cfg)
            && c.signingKeyID == step.id && c.signingPrivateKey == Some(step.private))
      && (step.Retire? ==>
            var c := Retired(cfg, step.id);
            Loadable(c) && TrustedKeys(c) == TrustedKeys(cfg) - {step.id})
  {
    hide IssuedToken, ValidIdentities, Sound, TrustedKeys;
    Reconfigured(s.replicas[step.r], step);
  }

  /** A run may go on with a step that is allowed at its end. */
  lemma {:induction false} Extended(s: Fleet, steps: seq<Step>, step: Step)
    requires Invariant(s) && Procedure(s, steps) && Allowed(Run(s, steps), step)
    ensures Procedure(s, steps + [step]) && Run(s, steps + [step]) == Next(Run(s, steps), step)
    decreases |steps|
  {
    hide Covered, Sound, Allowed, Next;
    if steps == [] {
      assert [step][1..] == [] && [] + [step] == [step];
      StepKeeps(s, step);
    } else {
      StepKeeps(s, steps[0]);
      Extended(Next(s, steps[0]), steps[1..], step);
      assert (steps + [step])[1..] == steps[1..] + [step];
    }
  }

  /** One kind of step taken at every replica. */
  datatype Phase = Distributing(id: string, public: PublicKey) | Activating(id: string, private: PrivateKey) | Retiring(id: string)

  function StepAt(phase: Phase, r: nat): Step {
    match phase
    case Distributing(id, public) => Distribute(r, id, public)
    case Activating(id, private) => Activate(r, id, private)
    case Retiring(id) => Retire(r, id)
  }

  function After(phase: Phase, cfg: Config): Config
    requires cfg.signingPrivateKey.Some?
  {
    match phase
    case Distributing(id, public) => Distributed(cfg, id, public)
    case Activating(id, private) => Activated(cfg, id, private)
    case Retiring(id) => Retired(cfg, id)
  }

  /** Replicas that all have this configuration may enter the phase. */
  ghost predicate Ready(phase: Phase, cfg: Config, issued: seq<Issued>, now: int) {
    && Loadable(cfg) && Usable(Loaded(cfg)) && phase.id != ""
    && match phase
       case Distributing(id, public) => id !in TrustedKeys(cfg)
       case Activating(id, private) => Trusts(cfg, id, PublicOf(private))
       case Retiring(id) => cfg.signingKeyID != id && forall i | i in issued && i.signer.keyID == id :: Lapsed(i, now)
  }

  /** The replicas of done have finished the phase, all others are before it. */
  ghost predicate Halfway(s: Fleet, phase: Phase, cfg: Config, done: set<nat>)
    requires cfg.signingPrivateKey.Some?
  {
    forall r | r in s.replicas :: s.replicas[r] == if r in done then After(phase, cfg) else cfg
  }

  /** The next replica may take the step, and the phase stays halfway. */
  lemma PhaseStep(s: Fleet, phase: Phase, cfg: Config, done: set<nat>, r: nat)
    requires Invariant(s) && Ready(phase, cfg, s.issued, s.now) && Halfway(s, phase, cfg, done) && r in s.replicas && r !in done
    ensures Allowed(s, StepAt(phase, r))
    ensures var e := Next(s, StepAt(phase, r));
      && Halfway(e, phase, cfg, done + {r}) && e.replicas.Keys == s.replicas.Keys && e.issued == s.issued && e.now == s.now
  {
    hide Invariant, Usable;
    Reconfigured(cfg, StepAt(phase, r));
    forall q | q in s.replicas
      ensures s.replicas[q] == cfg || s.replicas[q] == After(phase, cfg)
    {
    }
  }

  lemma AllMove(s: Fleet, steps: seq<Step>, phase: Phase, cfg: Config, done: set<nat>) returns (longer: seq<Step>)
    requires Invariant(s) && Procedure(s, steps)
    requires var e := Run(s, steps); Ready(phase, cfg, e.issued, e.now) && Halfway(e, phase, cfg, done)
    ensures Procedure(s, longer)
    ensures var e, f := Run(s, steps), Run(s, longer);
      && f.replicas.Keys == e.replicas.Keys && f.issued == e.issued && f.now == e.now
      && forall r | r in f.replicas :: f.replicas[r] == After(phase, cfg)
    decreases |Run(s, steps).replicas.Keys - done|
  {
    hide Invariant, Ready, Allowed, Next;
    var e := Run(s, steps);
    var rest := e.replicas.Keys - done;
    if rest != {} {
      var r :| r in rest;
      PhaseStep(e, phase, cfg, done, r);
      Extended(s, steps, StepAt(phase, r));
      assert e.replicas.Keys - (done + {r}) == rest - {r};
      longer := AllMove(s, steps + [StepAt(phase, r)], phase, cfg, done + {r});
    } else {
      longer := steps;
      assert forall r | r in e.replicas.Keys :: r in rest || r in done;
    }
  }

  /** How long to wait until every token has lapsed. */
  lemma {:induction false} Patience(issued: seq<Issued>, now: int) returns (wait: nat)
    ensures forall i | i in issued :: Lapsed(i, now + wait)
  {
    wait := 0;
    if issued != [] {
      var front, last := issued[..|issued| - 1], issued[|issued| - 1];
      var before := Patience(front, now);
      var own := (last.at / SECOND + last.signer.ttl) * SECOND - now;
      wait := if own > before then own else before;
      forall i | i in issued
        ensures Lapsed(i, now + wait)
      {
        if i in front {
          assert Lapsed(i, now + before);
        }
      }
    }
  }

  /** What a configuration becomes by the three phases. */
  lemma Rotated(cfg: Config, id: string, private: PrivateKey) returns (given: Config, used: Config, left: Config)
    requires Loadable(cfg) && Usable(Loaded(cfg)) && id != "" && id !in TrustedKeys(cfg)
    ensures given == After(Distributing(id, PublicOf(private)), cfg) && used == After(Activating(id, private), given)
    ensures left == After(Retiring(cfg.signingKeyID), used)
    ensures Loadable(given) && Usable(Loaded(given)) && Trusts(given, id, PublicOf(private))
    ensures Loadable(used) && Usable(Loaded(used)) && used.signingKeyID != cfg.signingKeyID && cfg.signingKeyID != ""
    ensures left.signingKeyID == id && left.signingPrivateKey == Some(private) && Loadable(left)
    ensures TrustedKeys(left) == TrustedKeys(cfg)[id := PublicOf(private)] - {cfg.signingKeyID}
  {
    given := After(Distributing(id, PublicOf(private)), cfg);
    Reconfigured(cfg, Distribute(0, id, PublicOf(private)));
    used := After(Activating(id, private), given);
    Reconfigured(given, Activate(0, id, private));
    left := After(Retiring(cfg.signingKeyID), used);
    Reconfigured(used, Retire(0, cfg.signingKeyID));
  }

  /**
   A rotation can always be finished: from a fleet on one configuration there is a run of the procedure after which every
   replica signs with the new key, and trusts it and whatever it trusted before except the old one.
   */
  lemma RotationCompletes(s: Fleet, cfg: Config, id: string, private: PrivateKey) returns (steps: seq<Step>)
    requires Invariant(s) && (forall r | r in s.replicas :: s.replicas[r] == cfg) && s.replicas != map[]
    requires Loadable(cfg) && Usable(Loaded(cfg)) && id != "" && id !in TrustedKeys(cfg)
    ensures Procedure(s, steps)
    ensures var e := Run(s, steps);
      && e.replicas.Keys == s.replicas.Keys && e.issued == s.issued
      && forall r | r in e.replicas ::
           && e.replicas[r].signingKeyID == id && e.replicas[r].signingPrivateKey == Some(private) && Loadable(e.replicas[r])
           && KeysOf(e, r) == TrustedKeys(cfg)[id := PublicOf(private)] - {cfg.signingKeyID}
  {
    var given, used, left := Rotated(cfg, id, private);
    hide Invariant, Usable, Lapsed, Next, Loadable, TrustedKeys, Distributed, Activated, Retired;
    Loads(given);
    Loads(used);
    steps := AllMove(s, [], Distributing(id, PublicOf(private)), cfg, {});
    steps := AllMove(s, steps, Activating(id, private), given, {});
    var wait := Patience(s.issued, Run(s, steps).now);
    Waited(Run(s, steps), wait);
    Extended(s, steps, Pass(wait));
    steps := steps + [Pass(wait)];
    steps := AllMove(s, steps, Retiring(cfg.signingKeyID), used, {});
  }

  lemma Loads(cfg: Config)
    requires Loadable(cfg)
    ensures cfg.signingPrivateKey.Some?
  {
  }

  lemma Waited(s: Fleet, wait: nat)
    requires Invariant(s)
    ensures Allowed(s, Pass(wait)) && Next(s, Pass(wait)) == s.(now := s.now + wait)
  {
  }
}
