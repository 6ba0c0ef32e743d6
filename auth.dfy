/** Registration and login: the referral-code generator, the registration
    handler that retries until it draws an unused code, and the credential
    and status gates of the two login handlers.

    Password hashing and comparison are foreign calls: the hash of the new
    password is a parameter, and comparing the submitted password with a
    stored hash is the predicate `matches`. The random bytes behind each
    code are a parameter too. Token signing and cookies are not modelled;
    a successful login reports the id and role the token would carry. */
module AuthController {
  import opened Schema
  import opened Queries
  import opened Store
  import AffiliateController
  import WebhookController

  // ---------------------------------------------------------------------
  // Referral codes

  /** The code alphabet: the upper-case letters, the lower-case letters and
      the digits, 62 characters in that order. */
  const UPPER: string := "ABCDEFGHIJKLMNOPQRSTUVWXYZ"
  const LOWER: string := "abcdefghijklmnopqrstuvwxyz"
  const DIGITS: string := "0123456789"
  const CODE_ALPHABET: string := UPPER + LOWER + DIGITS

  predicate IsAlphanumeric(c: char) {
    'A' <= c <= 'Z' || 'a' <= c <= 'z' || '0' <= c <= '9'
  }

  /* Each part of the alphabet runs through its character range in order. */

  lemma UpperRange(k: int)
    requires 0 <= k < |UPPER|
    ensures UPPER[k] == ('A' as int + k) as char
  {
  }

  lemma LowerRange(k: int)
    requires 0 <= k < |LOWER|
    ensures LOWER[k] == ('a' as int + k) as char
  {
  }

  lemma DigitRange(k: int)
    requires 0 <= k < |DIGITS|
    ensures DIGITS[k] == ('0' as int + k) as char
  {
  }

  const ALPHABET_SIZE := 62

  /** Position k of the alphabet, computed from the part it falls in. */
  function AlphabetChar(k: int): (c: char)
    requires 0 <= k < ALPHABET_SIZE
    ensures IsAlphanumeric(c)
  {
    if k < 26 then ('A' as int + k) as char
    else if k < 52 then ('a' as int + (k - 26)) as char
    else ('0' as int + (k - 52)) as char
  }

  lemma AlphabetAt(k: int)
    requires 0 <= k < ALPHABET_SIZE
    ensures |CODE_ALPHABET| == ALPHABET_SIZE && CODE_ALPHABET[k] == AlphabetChar(k)
  {
    if k < 26 {
      assert CODE_ALPHABET[k] == UPPER[k];
      UpperRange(k);
    } else if k < 52 {
      assert CODE_ALPHABET[k] == LOWER[k - 26];
      LowerRange(k - 26);
    } else {
      assert CODE_ALPHABET[k] == DIGITS[k - 52];
      DigitRange(k - 52);
    }
  }

  /** The alphabet character one random byte selects: the byte taken modulo
      the alphabet's size. */
  function CodeChar(b: byte): (c: char)
    ensures IsAlphanumeric(c)
  {
    AlphabetChar(b % ALPHABET_SIZE)
  }

  lemma CodeCharIsAlphabet(b: byte)
    ensures CodeChar(b) == CODE_ALPHABET[b % |CODE_ALPHABET|]
  {
    AlphabetAt(b % ALPHABET_SIZE);
  }

  /** Conversely, every letter and digit is selected by some byte. */
  lemma EveryAlphanumericIsDrawn(c: char)
    requires IsAlphanumeric(c)
    ensures exists b: byte :: CodeChar(b) == c
  {
    var b: byte;
    if 'A' <= c <= 'Z' {
      b := c as int - 'A' as int;
    } else if 'a' <= c <= 'z' {
      b := 26 + (c as int - 'a' as int);
    } else {
      b := 52 + (c as int - '0' as int);
    }
    assert CodeChar(b) == c;
  }

  /** The code a sequence of random bytes spells, one character per byte. */
  function CodeFor(bytes: seq<byte>): (code: string)
    ensures |code| == |bytes|
    ensures forall i :: 0 <= i < |code| ==> IsAlphanumeric(code[i])
  {
    if bytes == [] then [] else CodeFor(bytes[..|bytes| - 1]) + [CodeChar(bytes[|bytes| - 1])]
  }

  /** Character i of the code is the one byte i selects. */
  lemma {:induction false} CodeForSpellsBytes(bytes: seq<byte>)
    ensures forall i :: 0 <= i < |bytes| ==> CodeFor(bytes)[i] == CodeChar(bytes[i])
  {
    if bytes != [] {
      var n := |bytes| - 1;
      CodeForSpellsBytes(bytes[..n]);
      forall i | 0 <= i < n
        ensures CodeFor(bytes)[i] == CodeChar(bytes[i])
      {
        assert bytes[..n][i] == bytes[i];
      }
    }
  }

  /** Character i of the code is the alphabet at `bytes[i] mod 62`. */
  lemma CodeForIndexesAlphabet(bytes: seq<byte>)
    ensures forall i :: 0 <= i < |bytes| ==> CodeFor(bytes)[i] == CODE_ALPHABET[bytes[i] % |CODE_ALPHABET|]
  {
    CodeForSpellsBytes(bytes);
    forall i | 0 <= i < |bytes|
      ensures CodeFor(bytes)[i] == CODE_ALPHABET[bytes[i] % |CODE_ALPHABET|]
    {
      CodeCharIsAlphabet(bytes[i]);
    }
  }

  /** Appends one alphabet character per random byte. */
  method GenerateReferralCode(bytes: seq<byte>) returns (code: string)
    requires |bytes| == REFERRAL_CODE_LENGTH
    ensures code == CodeFor(bytes) && |code| == REFERRAL_CODE_LENGTH
  {
    code := "";
    for i := 0 to REFERRAL_CODE_LENGTH
      invariant code == CodeFor(bytes[..i])
    {
      assert bytes[..i + 1][..i] == bytes[..i];
      code := code + [CodeChar(bytes[i])];
    }
    assert bytes[..REFERRAL_CODE_LENGTH] == bytes;
  }

  // ---------------------------------------------------------------------
  // Registration

  /** The registration body; an empty wallet address stands for none. */
  datatype RegisterRequest = RegisterRequest(name: string, email: string, walletAddress: string)

  datatype RegisterOutcome =
    | EmailAlreadyRegistered
    | Registered(id: nat, referralCode: string)
  {
    function StatusCode(): nat {
      if Registered? then 201 else 409
    }
  }

  /** Whether a code is held by no affiliate. */
  predicate Unused(affiliates: seq<Affiliate>, code: string) {
    AffiliateWithCode(affiliates, code).None?
  }

  /** `draws` are the successive draws of 8 random bytes; each is one try. */
  predicate WellFormedDraws(draws: seq<seq<byte>>) {
    forall k :: 0 <= k < |draws| ==> |draws[k]| == REFERRAL_CODE_LENGTH
  }

  /** The try at which the registration loop stops: the first draw whose code
      is unused. */
  function FirstUnusedDraw(affiliates: seq<Affiliate>, draws: seq<seq<byte>>): (r: Option<nat>)
    ensures r.Some? ==> r.value < |draws| && Unused(affiliates, CodeFor(draws[r.value]))
    ensures r.Some? ==> forall j :: 0 <= j < r.value ==> !Unused(affiliates, CodeFor(draws[j]))
    ensures r.None? <==> forall j :: 0 <= j < |draws| ==> !Unused(affiliates, CodeFor(draws[j]))
  {
    FirstIndex(draws, (d: seq<byte>) => Unused(affiliates, CodeFor(d)))
  }

  /** The registration handler as a transition of the tables. The loop runs
      until it draws an unused code; the draws given here reach one. */
  function Register(t: Tables, req: RegisterRequest, passwordHash: string, draws: seq<seq<byte>>)
    : (r: Effect<RegisterOutcome>)
    requires WellFormedDraws(draws) && FirstUnusedDraw(t.affiliates, draws).Some?
    ensures r.after.referrals == t.referrals && r.after.payouts == t.payouts && r.after.clicks == t.clicks
    ensures r.out == EmailAlreadyRegistered <==> AffiliateWithEmail(t.affiliates, req.email).Some?
    ensures r.out == EmailAlreadyRegistered ==> r.after == t
    ensures r.out.Registered? ==>
              && r.out.id == |t.affiliates|
              && |r.out.referralCode| == REFERRAL_CODE_LENGTH
              && Unused(t.affiliates, r.out.referralCode)
              && r.out.referralCode == CodeFor(draws[FirstUnusedDraw(t.affiliates, draws).value])
              && r.after.affiliates == t.affiliates +
                   [Affiliate(req.name, req.email, passwordHash, r.out.referralCode,
                              if req.walletAddress == "" then None else Some(req.walletAddress),
                              AffiliateStatus.Pending, 0)]
  {
    if AffiliateWithEmail(t.affiliates, req.email).Some? then Effect(t, EmailAlreadyRegistered)
    else
      var code := CodeFor(draws[FirstUnusedDraw(t.affiliates, draws).value]);
      var row := Affiliate(req.name, req.email, passwordHash, code,
                           if req.walletAddress == "" then None else Some(req.walletAddress),
                           AffiliateStatus.Pending, 0);
      Effect(t.(affiliates := t.affiliates + [row]), Registered(|t.affiliates|, code))
  }

  /** The registration loop: draw a code, look it up, and draw again while
      it is taken. */
  method DrawUnusedCode(affiliates: seq<Affiliate>, draws: seq<seq<byte>>) returns (code: string)
    requires WellFormedDraws(draws) && FirstUnusedDraw(affiliates, draws).Some?
    ensures code == CodeFor(draws[FirstUnusedDraw(affiliates, draws).value])
    ensures Unused(affiliates, code) && |code| == REFERRAL_CODE_LENGTH
  {
    ghost var stop := FirstUnusedDraw(affiliates, draws).value;
    var tries := 0;
    code := GenerateReferralCode(draws[tries]);
    var codeExists := AffiliateWithCode(affiliates, code).Some?;
    while codeExists
      invariant tries <= stop
      invariant forall j :: 0 <= j < tries ==> !Unused(affiliates, CodeFor(draws[j]))
      invariant code == CodeFor(draws[tries])
      invariant codeExists == !Unused(affiliates, code)
      decreases stop - tries
    {
      tries := tries + 1;
      code := GenerateReferralCode(draws[tries]);
      codeExists := AffiliateWithCode(affiliates, code).Some?;
    }
    assert tries == stop;
  }

  method HandleRegister(db: Database, req: RegisterRequest, passwordHash: string, draws: seq<seq<byte>>)
    returns (out: RegisterOutcome)
    requires WellFormedDraws(draws) && FirstUnusedDraw(db.affiliates, draws).Some?
    modifies db
    ensures Register(old(db.Snapshot()), req, passwordHash, draws) == Effect(db.Snapshot(), out)
  {
    if AffiliateWithEmail(db.affiliates, req.email).Some? {
      return EmailAlreadyRegistered;
    }
    var code := DrawUnusedCode(db.affiliates, draws);
    var row := Affiliate(req.name, req.email, passwordHash, code,
                         if req.walletAddress == "" then None else Some(req.walletAddress),
                         AffiliateStatus.Pending, 0);
    var id := |db.affiliates|;
    db.affiliates := db.affiliates + [row];
    return Registered(id, code);
  }

  /** Appending an affiliate whose code and email are new, with no
      referrals counted, keeps the constraints. */
  lemma AppendAffiliateKeepsValid(t: Tables, row: Affiliate)
    requires Valid(t) && row.totalReferrals == 0
    requires Unused(t.affiliates, row.referralCode) && AffiliateWithEmail(t.affiliates, row.email).None?
    ensures Valid(t.(affiliates := t.affiliates + [row]))
  {
    var t' := t.(affiliates := t.affiliates + [row]);
    var n := |t.affiliates|;
    assert forall i :: 0 <= i < n ==> t'.affiliates[i] == t.affiliates[i];
    assert UniqueReferralCodes(t'.affiliates);
    assert UniqueEmails(t'.affiliates);
    ReferralCountUnreferenced(t.referrals, n);
    assert CountersAgree(t');
  }

  /** Registration keeps referral codes and emails unique and adds an
      affiliate with no referrals. */
  lemma RegisterPreservesValid(t: Tables, req: RegisterRequest, passwordHash: string, draws: seq<seq<byte>>)
    requires Valid(t) && WellFormedDraws(draws) && FirstUnusedDraw(t.affiliates, draws).Some?
    ensures Valid(Register(t, req, passwordHash, draws).after)
  {
    var r := Register(t, req, passwordHash, draws);
    if r.out.Registered? {
      var n := |t.affiliates|;
      AppendAffiliateKeepsValid(t, r.after.affiliates[n]);
      assert r.after == t.(affiliates := t.affiliates + [r.after.affiliates[n]]);
    }
  }

  /** A newly registered affiliate awaits approval: it cannot use the
      affiliate endpoints, and signups with its code are refused. */
  lemma NewAffiliateAwaitsApproval(t: Tables, req: RegisterRequest, passwordHash: string, draws: seq<seq<byte>>,
                                   signup: WebhookController.SignupRequest, now: int)
    requires WellFormedDraws(draws) && FirstUnusedDraw(t.affiliates, draws).Some?
    requires Register(t, req, passwordHash, draws).out.Registered?
    requires signup.refCode == Register(t, req, passwordHash, draws).out.referralCode && signup.userId != ""
    ensures var r := Register(t, req, passwordHash, draws);
            && !AffiliateController.Authenticated(r.after, r.out.id)
            && WebhookController.Signup(r.after, signup, now).out == WebhookController.AffiliateNotActive
  {
    var r := Register(t, req, passwordHash, draws);
    var n := |t.affiliates|;
    var found := AffiliateWithCode(r.after.affiliates, signup.refCode);
    assert r.after.affiliates[n].referralCode == signup.refCode;
    assert found.Some?;
    assert forall i :: 0 <= i < n ==> r.after.affiliates[i] == t.affiliates[i];
  }

  // ---------------------------------------------------------------------
  // Login

  datatype Role = AffiliateRole | AdminRole

  datatype LoginOutcome =
    | InvalidCredentials
    | ApplicationRejected
    | AccountSuspended
    | LoggedIn(id: nat, role: Role)
  {
    function StatusCode(): nat {
      match this
      case InvalidCredentials => 401
      case ApplicationRejected => 403
      case AccountSuspended => 403
      case LoggedIn(_, _) => 200
    }

    function Message(): string {
      match this
      case InvalidCredentials => "Invalid email or password"
      case ApplicationRejected => "Your application has been rejected"
      case AccountSuspended => "Your account has been suspended"
      case LoggedIn(_, _) => "Login successful"
    }
  }

  /** The affiliate login handler. `matches(h)` is whether the submitted
      password matches the stored hash `h`. */
  function AffiliateLogin(t: Tables, email: string, matches: string -> bool): (r: LoginOutcome)
    ensures r == InvalidCredentials <==>
              AffiliateWithEmail(t.affiliates, email).None?
              || !matches(t.affiliates[AffiliateWithEmail(t.affiliates, email).value].passwordHash)
    ensures r == ApplicationRejected <==>
              r != InvalidCredentials && t.affiliates[AffiliateWithEmail(t.affiliates, email).value].status == Rejected
    ensures r == AccountSuspended <==>
              r != InvalidCredentials && t.affiliates[AffiliateWithEmail(t.affiliates, email).value].status == Suspended
    ensures r.LoggedIn? ==>
              && r.role == AffiliateRole
              && r.id == AffiliateWithEmail(t.affiliates, email).value
              && t.affiliates[r.id].email == email
              && (t.affiliates[r.id].status == AffiliateStatus.Pending || t.affiliates[r.id].status == Approved)
  {
    match AffiliateWithEmail(t.affiliates, email)
    case None => InvalidCredentials
    case Some(a) =>
      var row := t.affiliates[a];
      if !matches(row.passwordHash) then InvalidCredentials
      else match row.status
        case Rejected => ApplicationRejected
        case Suspended => AccountSuspended
        case _ => LoggedIn(a, AffiliateRole)
  }

  /** An unknown email and a wrong password get the same reply, so a failed
      login does not tell whether the email is registered. */
  lemma FailedLoginRevealsNothing(t: Tables, unknown: string, known: string, matches: string -> bool)
    requires AffiliateWithEmail(t.affiliates, unknown).None?
    requires AffiliateWithEmail(t.affiliates, known).Some?
    requires !matches(t.affiliates[AffiliateWithEmail(t.affiliates, known).value].passwordHash)
    ensures AffiliateLogin(t, unknown, matches) == AffiliateLogin(t, known, matches)
    ensures AffiliateLogin(t, unknown, matches).StatusCode() == 401
    ensures AffiliateLogin(t, unknown, matches).Message() == "Invalid email or password"
  {
  }

  /** A pending affiliate is issued a token, but the affiliate endpoints
      still refuse it until it is approved. */
  lemma PendingLoginIsNotAuthenticated(t: Tables, email: string, matches: string -> bool)
    requires AffiliateLogin(t, email, matches).LoggedIn?
    ensures var id := AffiliateLogin(t, email, matches).id;
            AffiliateController.Authenticated(t, id) <==> t.affiliates[id].status == Approved
    ensures var id := AffiliateLogin(t, email, matches).id;
            t.affiliates[id].status != Approved ==> t.affiliates[id].status == AffiliateStatus.Pending
  {
  }

  /** A row of `admins`. */
  datatype Admin = Admin(email: string, passwordHash: string)

  function AdminWithEmail(admins: seq<Admin>, email: string): (r: Option<nat>)
    ensures r.Some? ==> r.value < |admins| && admins[r.value].email == email
    ensures r.None? <==> forall i :: 0 <= i < |admins| ==> admins[i].email != email
  {
    FirstIndex(admins, (x: Admin) => x.email == email)
  }

  /** The administrator login handler: the same credential check, no status
      gate, and the `admin` role. */
  function AdminLogin(admins: seq<Admin>, email: string, matches: string -> bool): (r: LoginOutcome)
    ensures r == InvalidCredentials || r.LoggedIn?
    ensures r == InvalidCredentials <==>
              AdminWithEmail(admins, email).None? || !matches(admins[AdminWithEmail(admins, email).value].passwordHash)
    ensures r.LoggedIn? ==> r.role == AdminRole && r.id == AdminWithEmail(admins, email).value && admins[r.id].email == email
  {
    match AdminWithEmail(admins, email)
    case None => InvalidCredentials
    case Some(i) => if matches(admins[i].passwordHash) then LoggedIn(i, AdminRole) else InvalidCredentials
  }
}
