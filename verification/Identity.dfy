/**
 The node identity store (src/identity.rs), the master-key lookup it depends on
 (src/secure_store.rs) and `resolve_identity` (src/fold_node/node.rs). Authenticated
 encryption is ideal; key sources and I/O faults are inputs.
 */
module Identity {
  import opened Wrappers

  const ENCRYPTED_PREFIX := "ENC:"

  datatype NodeIdentity = NodeIdentity(privateKey: string, publicKey: string)

  datatype Key = Key(bytes: string)

  datatype Error =
    | BadEnvKey
    | KeychainError
    | RefusesToRotate
    | NoMasterKey
    | CannotDecrypt
    | WriteFailed

  // ---- Base64 text (section 4 of RFC 4648) ----

  type Byte = b: int | 0 <= b < 256

  function Digit(n: nat): char
    requires n < 64
  {
    if n < 26 then ('A' as int + n) as char
    else if n < 52 then ('a' as int + (n - 26)) as char
    else if n < 62 then ('0' as int + (n - 52)) as char
    else if n == 62 then '+' else '/'
  }

  function Base64(b: seq<Byte>): string {
    if b == [] then ""
    else if |b| == 1 then [Digit(b[0] / 4), Digit(b[0] % 4 * 16), '=', '=']
    else if |b| == 2 then [Digit(b[0] / 4), Digit(b[0] % 4 * 16 + b[1] / 16), Digit(b[1] % 16 * 4), '=']
    else [Digit(b[0] / 4), Digit(b[0] % 4 * 16 + b[1] / 16), Digit(b[1] % 16 * 4 + b[2] / 64), Digit(b[2] % 64)]
         + Base64(b[3..])
  }

  /** The value that a character stands for; -1 for any other than the 64. */
  function ValueOf(c: char): int {
    if 'A' <= c <= 'Z' then c as int - 'A' as int
    else if 'a' <= c <= 'z' then 26 + (c as int - 'a' as int)
    else if '0' <= c <= '9' then 52 + (c as int - '0' as int)
    else if c == '+' then 62 else if c == '/' then 63 else -1
  }

  lemma DigitMeans(n: nat)
    requires n < 64
    ensures ValueOf(Digit(n)) == n
  {
  }

  /** Three bytes are written as four characters that spell the same 24-bit number; the rest follows. */
  lemma GroupMeans(b: seq<Byte>)
    requires |b| >= 3
    ensures var t := Base64(b);
            && |t| >= 4 && t[4..] == Base64(b[3..])
            && ((ValueOf(t[0]) * 64 + ValueOf(t[1])) * 64 + ValueOf(t[2])) * 64 + ValueOf(t[3])
               == (b[0] as int * 256 + b[1] as int) * 256 + b[2] as int
  {
    DigitMeans(b[0] / 4);
    DigitMeans(b[0] % 4 * 16 + b[1] / 16);
    DigitMeans(b[1] % 16 * 4 + b[2] / 64);
    DigitMeans(b[2] % 64);
  }

  /** One or two left-over bytes are followed by zero bits and padded with equals signs. */
  lemma RestMeans(b: seq<Byte>)
    requires 1 <= |b| <= 2
    ensures var t := Base64(b);
            && |t| == 4
            && (|b| == 1 ==> ValueOf(t[0]) * 64 + ValueOf(t[1]) == b[0] as int * 16 && t[2..] == "==")
            && (|b| == 2 ==>
                  && (ValueOf(t[0]) * 64 + ValueOf(t[1])) * 64 + ValueOf(t[2])
                     == (b[0] as int * 256 + b[1] as int) * 4
                  && t[3..] == "=")
  {
    DigitMeans(b[0] / 4);
    if |b| == 1 {
      DigitMeans(b[0] % 4 * 16);
    } else {
      DigitMeans(b[0] % 4 * 16 + b[1] / 16);
      DigitMeans(b[1] % 16 * 4);
    }
  }

  predicate IsSealed(stored: string) {
    ENCRYPTED_PREFIX <= stored
  }

  lemma {:induction false} Base64HasNoColon(b: seq<Byte>)
    ensures ':' !in Base64(b)
  {
    if |b| >= 3 {
      Base64HasNoColon(b[3..]);
    }
  }

  lemma SealedHasColon(stored: string)
    ensures IsSealed(stored) ==> ':' in stored
  {
    if IsSealed(stored) {
      assert stored[3] == ENCRYPTED_PREFIX[3];
    }
  }

  /** Base64 text is never taken for a sealed value. */
  lemma Base64IsNotSealed(b: seq<Byte>)
    ensures !IsSealed(Base64(b))
  {
    Base64HasNoColon(b);
    SealedHasColon(Base64(b));
  }

  // ---- Master key resolution ----

  datatype EnvVar = Unset | MalformedVar | HexKey(key: Key)

  datatype Keychain = NoEntry | Entry(key: Key) | WrongLength | Unreachable

  /** The build flavour and `FOLDDB_MASTER_KEY`, as one call finds them. */
  datatype Context = Context(osKeychain: bool, env: EnvVar)

  function TryGetMasterKey(ctx: Context, kc: Keychain): Result<Option<Key>, Error> {
    match ctx.env
    case MalformedVar => Err(BadEnvKey)
    case HexKey(k) => Ok(Some(k))
    case Unset =>
      if !ctx.osKeychain then Ok(None)
      else match kc
        case Entry(k) => Ok(Some(k))
        case NoEntry => Ok(None)
        case WrongLength => Err(KeychainError)
        case Unreachable => Err(KeychainError)
  }

  /** `initialize_master_key`: the key it settles on, and the keychain it leaves. */
  function InitializeMasterKey(ctx: Context, kc: Keychain, minted: Key, writable: bool)
    : (Result<Key, Error>, Keychain)
  {
    match TryGetMasterKey(ctx, kc)
    case Err(e) => (Err(e), kc)
    case Ok(Some(k)) => (Ok(k), kc)
    case Ok(None) => if writable then (Ok(minted), Entry(minted)) else (Err(KeychainError), kc)
  }

  function ResolveMasterKey(ctx: Context, kc: Keychain, hasEncryptedIdentity: bool): Result<Option<Key>, Error> {
    match TryGetMasterKey(ctx, kc)
    case Err(e) => Err(e)
    case Ok(Some(k)) => Ok(Some(k))
    case Ok(None) => if hasEncryptedIdentity then Err(RefusesToRotate) else Ok(None)
  }

  /** The key of the environment wins; the keychain is asked only on builds that have one; a bad source is an error. */
  lemma MasterKeyIff(ctx: Context, kc: Keychain, k: Key)
    ensures TryGetMasterKey(ctx, kc) == Ok(Some(k)) <==>
            ctx.env == HexKey(k) || (ctx.env.Unset? && ctx.osKeychain && kc == Entry(k))
    ensures TryGetMasterKey(ctx, kc) == Err(BadEnvKey) <==> ctx.env.MalformedVar?
    ensures TryGetMasterKey(ctx, kc) == Err(KeychainError) <==>
            ctx.env.Unset? && ctx.osKeychain && (kc.WrongLength? || kc.Unreachable?)
    ensures TryGetMasterKey(ctx, kc) == Ok(None) <==> ctx.env.Unset? && (!ctx.osKeychain || kc.NoEntry?)
  {
  }

  /** Without a key an unsealed identity is read as it is, and a sealed one is refused; otherwise the key is used. */
  lemma ResolvedKeyIff(ctx: Context, kc: Keychain, encrypted: bool, k: Key)
    ensures ResolveMasterKey(ctx, kc, encrypted) == Ok(Some(k)) <==> TryGetMasterKey(ctx, kc) == Ok(Some(k))
    ensures ResolveMasterKey(ctx, kc, encrypted) == Ok(None) <==> TryGetMasterKey(ctx, kc) == Ok(None) && !encrypted
    ensures ResolveMasterKey(ctx, kc, encrypted) == Err(RefusesToRotate) <==>
            TryGetMasterKey(ctx, kc) == Ok(None) && encrypted
  {
  }

  /** Initializing settles on a key that is found, or mints one and stores it, or fails; it overwrites no entry. */
  lemma InitializedKey(ctx: Context, kc: Keychain, minted: Key, writable: bool)
    ensures var (r, kc') := InitializeMasterKey(ctx, kc, minted, writable);
            match TryGetMasterKey(ctx, kc)
            case Ok(Some(k)) => r == Ok(k) && kc' == kc
            case Ok(None) => if writable then r == Ok(minted) && kc' == Entry(minted) else r.Err? && kc' == kc
            case Err(e) => r == Err(e) && kc' == kc
  {
  }

  // ---- Sealing ----

  /** An authenticated cipher on text: `seal(key, nonce, plaintext)` and `unseal(key, ciphertext)`. */
  datatype Cipher = Cipher(seal: (Key, nat, string) -> string, unseal: (Key, string) -> Option<string>)

  /** What was sealed opens to itself, and no text opens under two keys. */
  ghost predicate Ideal(c: Cipher) {
    && (forall k, n, p :: c.unseal(k, c.seal(k, n, p)) == Some(p))
    && (forall k, k', t :: c.unseal(k, t).Some? && c.unseal(k', t).Some? ==> k == k')
  }

  function EncryptPrivate(c: Cipher, key: Option<Key>, nonce: nat, plaintext: string): string {
    if key.None? then plaintext else ENCRYPTED_PREFIX + c.seal(key.value, nonce, plaintext)
  }

  function DecryptPrivate(c: Cipher, key: Option<Key>, stored: string): Result<string, Error> {
    if !IsSealed(stored) then Ok(stored)
    else if key.None? then Err(NoMasterKey)
    else match c.unseal(key.value, stored[|ENCRYPTED_PREFIX|..])
      case None => Err(CannotDecrypt)
      case Some(p) => Ok(p)
  }

  /** Whatever keys are at hand, two reads of one stored value never disagree. */
  lemma ReadsAgree(c: Cipher, k: Option<Key>, k': Option<Key>, stored: string)
    requires Ideal(c)
    ensures var r, r' := DecryptPrivate(c, k, stored), DecryptPrivate(c, k', stored); r.Ok? && r'.Ok? ==> r == r'
  {
  }

  /** Sealing under any key or none, then reading under any key or none, yields the original or an error. */
  lemma ReadsBackOrFails(c: Cipher, k: Option<Key>, k': Option<Key>, nonce: nat, p: string)
    requires Ideal(c) && (k.Some? || !IsSealed(p))
    ensures var stored := EncryptPrivate(c, k, nonce, p);
            && DecryptPrivate(c, k, stored) == Ok(p)
            && (DecryptPrivate(c, k', stored) == Ok(p) || DecryptPrivate(c, k', stored).Err?)
  {
    if k.Some? {
      var t := c.seal(k.value, nonce, p);
      assert (ENCRYPTED_PREFIX + t)[|ENCRYPTED_PREFIX|..] == t;
      assert c.unseal(k.value, t) == Some(p);
    }
  }

  /** Sealing and reading under the same key yields the original exactly when there is a key or no sealed look. */
  lemma ReadsBackIff(c: Cipher, k: Option<Key>, nonce: nat, p: string)
    requires Ideal(c)
    ensures DecryptPrivate(c, k, EncryptPrivate(c, k, nonce, p)) == Ok(p) <==> k.Some? || !IsSealed(p)
  {
    if k.Some? || !IsSealed(p) {
      ReadsBackOrFails(c, k, k, nonce, p);
    }
  }

  /** Some key opens the text behind the marker to another plaintext. */
  ghost predicate OpensToAnother(c: Cipher, p: string) {
    IsSealed(p) && exists k, q :: c.unseal(k, p[|ENCRYPTED_PREFIX|..]) == Some(q) && q != p
  }

  /** No reader is given another key exactly when there is a key or the plaintext is no sealed text of another one. */
  lemma NeverAnotherKeyIff(c: Cipher, k: Option<Key>, nonce: nat, p: string)
    requires Ideal(c)
    ensures (forall k' :: var r := DecryptPrivate(c, k', EncryptPrivate(c, k, nonce, p)); r.Ok? ==> r.value == p) <==>
            k.Some? || !OpensToAnother(c, p)
  {
    if k.Some? || !IsSealed(p) {
      forall k' { ReadsBackOrFails(c, k, k', nonce, p); }
    } else if OpensToAnother(c, p) {
      var k1, q :| c.unseal(k1, p[|ENCRYPTED_PREFIX|..]) == Some(q) && q != p;
      assert DecryptPrivate(c, Some(k1), EncryptPrivate(c, k, nonce, p)) == Ok(q);
    }
  }

  /** The condition is needed: an `ENC:` plaintext stored without a key can read back as another key. */
  lemma SealedLookingPlaintextMisreads(c: Cipher, k: Key, nonce: nat)
    requires Ideal(c)
    ensures var p := ENCRYPTED_PREFIX + c.seal(k, nonce, "A");
            DecryptPrivate(c, Some(k), EncryptPrivate(c, None, nonce, p)) == Ok("A") && p != "A"
  {
    var t := c.seal(k, nonce, "A");
    assert (ENCRYPTED_PREFIX + t)[|ENCRYPTED_PREFIX|..] == t;
  }

  /** Private keys are base64 text, so under any keys or none they read back as themselves or not at all. */
  lemma EncodedKeyReadsBack(c: Cipher, k: Option<Key>, k': Option<Key>, nonce: nat, b: seq<Byte>)
    requires Ideal(c)
    ensures var stored := EncryptPrivate(c, k, nonce, Base64(b));
            && DecryptPrivate(c, k, stored) == Ok(Base64(b))
            && (DecryptPrivate(c, k', stored) == Ok(Base64(b)) || DecryptPrivate(c, k', stored).Err?)
  {
    Base64IsNotSealed(b);
    ReadsBackOrFails(c, k, k', nonce, Base64(b));
  }

  /** An ideal cipher exists, so the lemmas about one are not vacuous. */
  lemma IdealCipherExists() returns (c: Cipher)
    ensures Ideal(c)
  {
    c := Cipher((k: Key, n: nat, p: string) => Framed(k, p), (k: Key, t: string) => Unframed(k, t));
    forall k, n, p ensures c.unseal(k, c.seal(k, n, p)) == Some(p) {
      FrameRoundTrip(k, p);
    }
    forall k, k', t | c.unseal(k, t).Some? && c.unseal(k', t).Some? ensures k == k' {
      FrameHasOneKey(k, k', t);
    }
  }

  /** A key written as one tick per character before the characters themselves, then a stop. */
  function Ticks(n: nat): string {
    if n == 0 then "." else "|" + Ticks(n - 1)
  }

  function Framed(k: Key, p: string): string {
    Ticks(|k.bytes|) + k.bytes + p
  }

  function Unframed(k: Key, t: string): Option<string> {
    var head := Ticks(|k.bytes|) + k.bytes;
    if head <= t then Some(t[|head|..]) else None
  }

  lemma FrameRoundTrip(k: Key, p: string)
    ensures Unframed(k, Framed(k, p)) == Some(p)
  {
    var head := Ticks(|k.bytes|) + k.bytes;
    assert (head + p)[|head|..] == p;
  }

  lemma {:induction false} TicksArePrefixFree(m: nat, n: nat, s: string, t: string)
    requires Ticks(m) + s == Ticks(n) + t
    ensures m == n && s == t
  {
    var a, b := Ticks(m) + s, Ticks(n) + t;
    assert a[0] == (if m == 0 then '.' else '|') && b[0] == (if n == 0 then '.' else '|');
    if m > 0 && n > 0 {
      assert a[1..] == Ticks(m - 1) + s && b[1..] == Ticks(n - 1) + t;
      TicksArePrefixFree(m - 1, n - 1, s, t);
    } else {
      assert a[1..] == s && b[1..] == t;
    }
  }

  lemma FrameHasOneKey(k: Key, k': Key, t: string)
    requires Unframed(k, t).Some? && Unframed(k', t).Some?
    ensures k == k'
  {
    var p, p' := Unframed(k, t).value, Unframed(k', t).value;
    var ticks, ticks' := Ticks(|k.bytes|), Ticks(|k'.bytes|);
    assert t == (ticks + k.bytes) + p == ticks + (k.bytes + p);
    assert t == (ticks' + k'.bytes) + p' == ticks' + (k'.bytes + p');
    TicksArePrefixFree(|k.bytes|, |k'.bytes|, k.bytes + p, k'.bytes + p');
    assert k.bytes == (k.bytes + p)[..|k.bytes|] == k'.bytes;
  }

  // ---- The identity tree ----

  datatype Tree = Tree(privateKey: Option<string>, publicKey: Option<string>)

  datatype World = World(tree: Tree, keychain: Keychain)

  function Open(w: World, ctx: Context): Result<Option<Key>, Error> {
    ResolveMasterKey(ctx, w.keychain, w.tree.privateKey.Some? && IsSealed(w.tree.privateKey.value))
  }

  function Get(c: Cipher, tree: Tree, key: Option<Key>): Result<Option<NodeIdentity>, Error> {
    if tree.publicKey.None? || tree.privateKey.None? then Ok(None)
    else match DecryptPrivate(c, key, tree.privateKey.value)
      case Err(e) => Err(e)
      case Ok(p) => Ok(Some(NodeIdentity(p, tree.publicKey.value)))
  }

  /** Where the two inserts of `set` may fail: the private key is written first. */
  datatype Fault = NoFault | AtPrivate | AtPublic

  /** What chance and the environment contribute to a minting call. */
  datatype Chance = Chance(freshKey: Key, freshIdentity: NodeIdentity, nonce: nat, fault: Fault, keychainWritable: bool)

  function SetIdentity(c: Cipher, tree: Tree, key: Option<Key>, id: NodeIdentity, ch: Chance): (Tree, bool) {
    var sealed := EncryptPrivate(c, key, ch.nonce, id.privateKey);
    match ch.fault
    case NoFault => (Tree(Some(sealed), Some(id.publicKey)), true)
    case AtPrivate => (tree, false)
    case AtPublic => (tree.(privateKey := Some(sealed)), false)
  }

  /** One call, or the keychain changing between calls. */
  datatype Event =
    | KeychainBecomes(keychain: Keychain)
    | Load(ctx: Context)
    | Provision(ctx: Context, ch: Chance)
    | Resolve(ctx: Context, seed: Option<NodeIdentity>, ch: Chance)

  type Answer = Result<Option<NodeIdentity>, Error>

  function LoadCall(c: Cipher, w: World, ctx: Context): Answer {
    match Open(w, ctx)
    case Err(e) => Err(e)
    case Ok(key) => Get(c, w.tree, key)
  }

  /** Writes `id` under `key` and returns it. */
  function Persist(c: Cipher, w: World, key: Option<Key>, id: NodeIdentity, ch: Chance): (World, Answer) {
    var (tree, ok) := SetIdentity(c, w.tree, key, id, ch);
    (w.(tree := tree), if ok then Ok(Some(id)) else Err(WriteFailed))
  }

  function ProvisionCall(c: Cipher, w: World, ctx: Context, ch: Chance): (World, Answer) {
    match LoadCall(c, w, ctx)
    case Err(e) => (w, Err(e))
    case Ok(Some(id)) => (w, Ok(Some(id)))
    case Ok(None) =>
      var (init, kc) := if ctx.osKeychain then InitializeMasterKey(ctx, w.keychain, ch.freshKey, ch.keychainWritable)
                        else (Ok(ch.freshKey), w.keychain);
      var w1 := w.(keychain := kc);
      if init.Err? then (w1, Err(init.error))
      else match Open(w1, ctx)
        case Err(e) => (w1, Err(e))
        case Ok(key) => Persist(c, w1, key, ch.freshIdentity, ch)
  }

  function ResolveCall(c: Cipher, w: World, ctx: Context, seed: Option<NodeIdentity>, ch: Chance): (World, Answer) {
    match Open(w, ctx)
    case Err(e) => (w, Err(e))
    case Ok(key) =>
      match Get(c, w.tree, key)
      case Err(e) => (w, Err(e))
      case Ok(Some(id)) => (w, Ok(Some(id)))
      case Ok(None) => Persist(c, w, key, if seed.Some? then seed.value else ch.freshIdentity, ch)
  }

  function Do(c: Cipher, w: World, ev: Event): (World, Answer) {
    match ev
    case KeychainBecomes(kc) => (w.(keychain := kc), Ok(None))
    case Load(ctx) => (w, LoadCall(c, w, ctx))
    case Provision(ctx, ch) => ProvisionCall(c, w, ctx, ch)
    case Resolve(ctx, seed, ch) => ResolveCall(c, w, ctx, seed, ch)
  }

  /** The private key is the base64 text of some bytes, as `identity_from_keypair` produces it. */
  ghost predicate IsEncoded(id: NodeIdentity) {
    exists b :: id.privateKey == Base64(b)
  }

  /** Minted and seeded private keys are base64 text. */
  ghost predicate Encoded(ev: Event) {
    match ev
    case Provision(_, ch) => IsEncoded(ch.freshIdentity)
    case Resolve(_, seed, ch) => IsEncoded(ch.freshIdentity) && (seed.Some? ==> IsEncoded(seed.value))
    case _ => true
  }

  lemma EncodedIsProper(ev: Event)
    requires Encoded(ev)
    ensures Proper(ev)
  {
    forall b { Base64IsNotSealed(b); }
  }

  /** Minted and seeded private keys do not look sealed. */
  predicate Proper(ev: Event) {
    match ev
    case Provision(_, ch) => !IsSealed(ch.freshIdentity.privateKey)
    case Resolve(_, seed, ch) =>
      !IsSealed(ch.freshIdentity.privateKey) && (seed.Some? ==> !IsSealed(seed.value.privateKey))
    case _ => true
  }

  // ---- No silent rotation ----

  /** Never a public key without a private one. Both and neither are allowed, and so is a half-written pair. */
  predicate Whole(tree: Tree) {
    tree.publicKey.Some? ==> tree.privateKey.Some?
  }

  /** Every read of the tree, under any key, fails or yields `id`. */
  ghost predicate Holds(c: Cipher, tree: Tree, id: NodeIdentity) {
    && tree.publicKey == Some(id.publicKey) && tree.privateKey.Some?
    && forall key :: DecryptPrivate(c, key, tree.privateKey.value).Err?
                     || DecryptPrivate(c, key, tree.privateKey.value) == Ok(id.privateKey)
  }

  lemma ReadingPinsIdentity(c: Cipher, tree: Tree, key: Option<Key>)
    requires Ideal(c) && Get(c, tree, key).Ok? && Get(c, tree, key).value.Some?
    ensures Holds(c, tree, Get(c, tree, key).value.value)
  {
    forall k' { ReadsAgree(c, key, k', tree.privateKey.value); }
  }

  lemma WritingPinsIdentity(c: Cipher, tree: Tree, key: Option<Key>, id: NodeIdentity, ch: Chance)
    requires Ideal(c) && !IsSealed(id.privateKey) && SetIdentity(c, tree, key, id, ch).1
    ensures Holds(c, SetIdentity(c, tree, key, id, ch).0, id)
  {
    forall k' { ReadsBackOrFails(c, key, k', ch.nonce, id.privateKey); }
  }

  /** Once a public key is stored, no call changes the tree. */
  lemma StoredTreeIsFrozen(c: Cipher, w: World, ev: Event)
    requires Whole(w.tree)
    ensures Whole(Do(c, w, ev).0.tree)
    ensures w.tree.publicKey.Some? ==> Do(c, w, ev).0.tree == w.tree
  {
  }

  /** A public key is safe exactly when a private key is stored with it: alone, a seeded boot replaces it. */
  lemma PublicKeyIsSafeIffPaired(c: Cipher, w: World)
    requires w.tree.publicKey.Some?
    ensures (forall ev | Proper(ev) :: Do(c, w, ev).0.tree.publicKey == w.tree.publicKey) <==> w.tree.privateKey.Some?
  {
    if w.tree.privateKey.Some? {
      forall ev { StoredTreeIsFrozen(c, w, ev); }
    } else {
      var seed := NodeIdentity("", w.tree.publicKey.value + "A");
      var ev := Resolve(Context(false, Unset), Some(seed), Chance(Key(""), seed, 0, NoFault, true));
      assert Proper(ev) && Do(c, w, ev).0.tree.publicKey == Some(seed.publicKey);
    }
  }

  /** A call that returns an identity leaves a tree that holds it. */
  lemma AnswerIsHeld(c: Cipher, w: World, ev: Event, id: NodeIdentity)
    requires Ideal(c) && Whole(w.tree) && Proper(ev) && Do(c, w, ev).1 == Ok(Some(id))
    ensures Holds(c, Do(c, w, ev).0.tree, id)
  {
    match ev
    case Load(ctx) => ReadingPinsIdentity(c, w.tree, Open(w, ctx).value);
    case Provision(ctx, ch) =>
      if LoadCall(c, w, ctx) == Ok(None) {
        var w1 := w.(keychain := Do(c, w, ev).0.keychain);
        WritingPinsIdentity(c, w1.tree, Open(w1, ctx).value, id, ch);
      } else {
        ReadingPinsIdentity(c, w.tree, Open(w, ctx).value);
      }
    case Resolve(ctx, seed, ch) =>
      var key := Open(w, ctx).value;
      if Get(c, w.tree, key) == Ok(None) {
        WritingPinsIdentity(c, w.tree, key, id, ch);
      } else {
        ReadingPinsIdentity(c, w.tree, key);
      }
  }

  /** On a tree that holds `id`, the only identity any call can return is `id`. */
  lemma HeldIsAnswer(c: Cipher, w: World, ev: Event, id: NodeIdentity)
    requires Holds(c, w.tree, id)
    ensures var a := Do(c, w, ev).1; a.Ok? && a.value.Some? ==> a.value.value == id
  {
  }

  function Run(c: Cipher, w: World, evs: seq<Event>): World {
    if evs == [] then w else Do(c, Run(c, w, evs[..|evs| - 1]), evs[|evs| - 1]).0
  }

  function AnswerAt(c: Cipher, w: World, evs: seq<Event>, i: nat): Answer
    requires i < |evs|
  {
    Do(c, Run(c, w, evs[..i]), evs[i]).1
  }

  lemma {:induction false} FrozenOverRun(c: Cipher, w: World, evs: seq<Event>, i: nat)
    requires i <= |evs| && Whole(w.tree)
    ensures Whole(Run(c, w, evs[..i]).tree)
    ensures Run(c, w, evs[..i]).tree.publicKey.Some? ==> Run(c, w, evs).tree == Run(c, w, evs[..i]).tree
    decreases |evs|
  {
    if i < |evs| {
      var before, n := evs[..|evs| - 1], |evs| - 1;
      FrozenOverRun(c, w, before, i);
      assert before[..i] == evs[..i];
      FrozenOverRun(c, w, before, n);
      assert before[..n] == before;
      StoredTreeIsFrozen(c, Run(c, w, before), evs[n]);
    } else {
      assert evs[..i] == evs;
      if evs != [] {
        var before := evs[..|evs| - 1];
        FrozenOverRun(c, w, before, |before|);
        assert before[..|before|] == before;
        StoredTreeIsFrozen(c, Run(c, w, before), evs[|evs| - 1]);
      }
    }
  }

  /**
   No silent rotation: over any run of calls, with the environment key, the keychain and the build flavour
   changing arbitrarily in between, a stored public key stays stored unchanged, and all calls that return
   an identity return the same one.
   */
  lemma NoSilentRotation(c: Cipher, w: World, evs: seq<Event>, i: nat, j: nat)
    requires Ideal(c) && Whole(w.tree) && (forall ev | ev in evs :: Proper(ev))
    requires i <= j < |evs|
    ensures Run(c, w, evs[..i]).tree.publicKey.Some? ==>
              Run(c, w, evs[..j]).tree.publicKey == Run(c, w, evs[..i]).tree.publicKey
    ensures forall id, id' | AnswerAt(c, w, evs, i) == Ok(Some(id)) && AnswerAt(c, w, evs, j) == Ok(Some(id')) ::
              id == id'
  {
    FrozenOverRun(c, w, evs[..j], i);
    assert evs[..j][..i] == evs[..i];
    forall id, id' | i < j && AnswerAt(c, w, evs, i) == Ok(Some(id)) && AnswerAt(c, w, evs, j) == Ok(Some(id'))
      ensures id == id'
    {
      AnswerIsHeld(c, Run(c, w, evs[..i]), evs[i], id);
      assert evs[..i + 1][..i] == evs[..i] && evs[..i + 1][i] == evs[i];
      FrozenOverRun(c, w, evs[..j], i + 1);
      assert evs[..j][..i + 1] == evs[..i + 1];
      HeldIsAnswer(c, Run(c, w, evs[..j]), evs[j], id);
    }
  }

  /** In particular when all minted and seeded private keys are base64 text. */
  lemma NoSilentRotationOfEncodedKeys(c: Cipher, w: World, evs: seq<Event>, i: nat, j: nat)
    requires Ideal(c) && Whole(w.tree) && (forall ev | ev in evs :: Encoded(ev))
    requires i <= j < |evs|
    ensures Run(c, w, evs[..i]).tree.publicKey.Some? ==>
              Run(c, w, evs[..j]).tree.publicKey == Run(c, w, evs[..i]).tree.publicKey
    ensures forall id, id' | AnswerAt(c, w, evs, i) == Ok(Some(id)) && AnswerAt(c, w, evs, j) == Ok(Some(id')) ::
              id == id'
  {
    forall ev | ev in evs ensures Proper(ev) { EncodedIsProper(ev); }
    NoSilentRotation(c, w, evs, i, j);
  }

  /** The tree holds an identity as far as a reader can tell: both keys are there. */
  predicate HasBoth(tree: Tree) {
    tree.publicKey.Some? && tree.privateKey.Some?
  }

  /** Reading a tree with both keys gives the public key as stored and the private key as read; else there is none. */
  lemma GetMeans(c: Cipher, tree: Tree, key: Option<Key>)
    ensures !HasBoth(tree) ==> Get(c, tree, key) == Ok(None)
    ensures HasBoth(tree) ==>
              match DecryptPrivate(c, key, tree.privateKey.value)
              case Ok(p) => Get(c, tree, key) == Ok(Some(NodeIdentity(p, tree.publicKey.value)))
              case Err(e) => Get(c, tree, key) == Err(e)
  {
  }

  /** What a reader makes of a stored private key: text without the marker as it is, sealed text opened or refused. */
  lemma DecryptMeans(c: Cipher, key: Option<Key>, text: string)
    ensures !("ENC:" <= text) ==> DecryptPrivate(c, key, text) == Ok(text)
    ensures key.None? ==> DecryptPrivate(c, key, "ENC:" + text) == Err(NoMasterKey)
    ensures key.Some? ==>
              match c.unseal(key.value, text)
              case Some(p) => DecryptPrivate(c, key, "ENC:" + text) == Ok(p)
              case None => DecryptPrivate(c, key, "ENC:" + text) == Err(CannotDecrypt)
  {
    assert ("ENC:" + text)[4..] == text;
  }

  /** A stored private key is plain exactly when there was no key. */
  lemma EncryptMeans(c: Cipher, key: Option<Key>, nonce: nat, p: string)
    ensures EncryptPrivate(c, key, nonce, p) ==
            match key case None => p case Some(k) => "ENC:" + c.seal(k, nonce, p)
  {
  }

  /** The identity that a boot without a stored one settles on. */
  function Chosen(seed: Option<NodeIdentity>, ch: Chance): NodeIdentity {
    match seed case Some(s) => s case None => ch.freshIdentity
  }

  /** A device that holds an identity answers it, or why it cannot be read, and changes nothing. */
  lemma StoredIdentityWins(c: Cipher, w: World, ctx: Context, seed: Option<NodeIdentity>, ch: Chance)
    requires HasBoth(w.tree)
    ensures ResolveCall(c, w, ctx, seed, ch) == (w, LoadCall(c, w, ctx))
    ensures ProvisionCall(c, w, ctx, ch) == (w, LoadCall(c, w, ctx))
  {
  }

  /**
   A device that holds none takes the seed, or without one the fresh identity: it answers it and stores it, and a load
   in the same surroundings reads it back.
   */
  lemma SeedIsAdopted(c: Cipher, w: World, ctx: Context, seed: Option<NodeIdentity>, ch: Chance)
    requires Ideal(c) && !HasBoth(w.tree) && Open(w, ctx).Ok? && ch.fault.NoFault?
    requires !IsSealed(Chosen(seed, ch).privateKey)
    ensures var (w', a) := ResolveCall(c, w, ctx, seed, ch);
            && a == Ok(Some(Chosen(seed, ch)))
            && w'.tree.publicKey == Some(Chosen(seed, ch).publicKey) && w'.keychain == w.keychain
            && LoadCall(c, w', ctx) == a
  {
    var id, key := Chosen(seed, ch), Open(w, ctx).value;
    ReadsBackOrFails(c, key, key, ch.nonce, id.privateKey);
    var (w', a) := ResolveCall(c, w, ctx, seed, ch);
    assert w'.tree.privateKey == Some(EncryptPrivate(c, key, ch.nonce, id.privateKey));
  }

  /** When opening or writing fails, so does the call; a fault at the second insert has stored the private key only. */
  lemma FailedBootKeepsPublicKey(c: Cipher, w: World, ctx: Context, seed: Option<NodeIdentity>, ch: Chance)
    ensures Open(w, ctx).Err? ==> ResolveCall(c, w, ctx, seed, ch) == (w, Err(Open(w, ctx).error))
    ensures !HasBoth(w.tree) && Open(w, ctx).Ok? && !ch.fault.NoFault? ==>
              var (w', a) := ResolveCall(c, w, ctx, seed, ch);
              && a == Err(WriteFailed) && w'.tree.publicKey == w.tree.publicKey && w'.keychain == w.keychain
              && w'.tree.privateKey ==
                 (if ch.fault.AtPrivate? then w.tree.privateKey
                  else Some(EncryptPrivate(c, Open(w, ctx).value, ch.nonce, Chosen(seed, ch).privateKey)))
  {
  }

  /**
   Provisioning a device without an identity: on a keychain build whose keychain is empty and writable, the minted key
   is stored, the fresh identity answered, and a load in the same surroundings reads it back.
   */
  lemma ProvisionMints(c: Cipher, w: World, ctx: Context, ch: Chance)
    requires Ideal(c) && w.tree == Tree(None, None) && ctx == Context(true, Unset) && w.keychain.NoEntry?
    requires ch.keychainWritable && ch.fault.NoFault?
    ensures var (w', a) := ProvisionCall(c, w, ctx, ch);
            && a == Ok(Some(ch.freshIdentity)) && w'.keychain == Entry(ch.freshKey)
            && w'.tree == Tree(Some("ENC:" + c.seal(ch.freshKey, ch.nonce, ch.freshIdentity.privateKey)),
                               Some(ch.freshIdentity.publicKey))
            && LoadCall(c, w', ctx) == a
  {
    ReadsBackOrFails(c, Some(ch.freshKey), Some(ch.freshKey), ch.nonce, ch.freshIdentity.privateKey);
  }

  /** On a build without a keychain the keychain is never touched, and without an environment key nothing is sealed. */
  lemma ProvisionWithoutKeychain(c: Cipher, w: World, env: EnvVar, ch: Chance)
    requires Ideal(c) && w.tree == Tree(None, None) && ch.fault.NoFault? && !env.MalformedVar?
    requires !IsSealed(ch.freshIdentity.privateKey)
    ensures var ctx := Context(false, env);
            var (w', a) := ProvisionCall(c, w, ctx, ch);
            && a == Ok(Some(ch.freshIdentity)) && w'.keychain == w.keychain
            && w'.tree.publicKey == Some(ch.freshIdentity.publicKey)
            && (env.Unset? ==> w'.tree.privateKey == Some(ch.freshIdentity.privateKey))
            && LoadCall(c, w', ctx) == a
  {
    var key := match env case HexKey(k) => Some(k) case _ => None;
    ReadsBackOrFails(c, key, key, ch.nonce, ch.freshIdentity.privateKey);
  }

  /** A failing initialization or a failing write fails the call and stores no public key. */
  lemma FailedProvisionKeepsPublicKey(c: Cipher, w: World, ctx: Context, ch: Chance)
    requires !HasBoth(w.tree)
    ensures var (w', a) := ProvisionCall(c, w, ctx, ch);
            && (a.Err? ==> w'.tree.publicKey == w.tree.publicKey)
            && (!ch.fault.NoFault? ==> a.Err?)
            && (ctx == Context(true, Unset) && w.keychain.NoEntry? && !ch.keychainWritable ==> a.Err? && w' == w)
  {
  }

  /** A sealed identity is never opened, let alone overwritten, without a key. */
  lemma RefusesWithoutKey(c: Cipher, w: World, ctx: Context, seed: Option<NodeIdentity>, ch: Chance)
    requires w.tree.privateKey.Some? && IsSealed(w.tree.privateKey.value)
    requires TryGetMasterKey(ctx, w.keychain) == Ok(None)
    ensures LoadCall(c, w, ctx) == Err(RefusesToRotate)
    ensures ProvisionCall(c, w, ctx, ch) == (w, Err(RefusesToRotate))
    ensures ResolveCall(c, w, ctx, seed, ch) == (w, Err(RefusesToRotate))
  {
  }

  /** On a keychain build, what `provision` mints is sealed from the start, and no keychain entry is overwritten. */
  lemma ProvisionSealsFromTheStart(c: Cipher, w: World, ctx: Context, ch: Chance)
    requires ctx.osKeychain
    ensures var (w', a) := ProvisionCall(c, w, ctx, ch);
            && (a.Ok? && LoadCall(c, w, ctx) == Ok(None) ==>
                  w'.tree.privateKey.Some? && IsSealed(w'.tree.privateKey.value))
            && (w'.keychain == w.keychain || (w.keychain.NoEntry? && w'.keychain == Entry(ch.freshKey)))
  {
  }

  /** The identity tree and keychain as the calls update them in place. */
  class Device {
    var tree: Tree
    var keychain: Keychain

    ghost function Now(): World
      reads this
    {
      World(tree, keychain)
    }

    method SetTree(c: Cipher, key: Option<Key>, id: NodeIdentity, ch: Chance) returns (ok: bool)
      modifies this`tree
      ensures (tree, ok) == SetIdentity(c, old(tree), key, id, ch)
    {
      var sealed := EncryptPrivate(c, key, ch.nonce, id.privateKey);
      if ch.fault.AtPrivate? {
        return false;
      }
      tree := tree.(privateKey := Some(sealed));
      if ch.fault.AtPublic? {
        return false;
      }
      tree := tree.(publicKey := Some(id.publicKey));
      return true;
    }

    method InitializeKeychain(ctx: Context, ch: Chance) returns (r: Result<Key, Error>)
      modifies this`keychain
      ensures (r, keychain) == InitializeMasterKey(ctx, old(keychain), ch.freshKey, ch.keychainWritable)
    {
      match TryGetMasterKey(ctx, keychain) {
        case Err(e) => return Err(e);
        case Ok(Some(k)) => return Ok(k);
        case Ok(None) =>
          if !ch.keychainWritable {
            return Err(KeychainError);
          }
          keychain := Entry(ch.freshKey);
          return Ok(ch.freshKey);
      }
    }

    method ProvisionIdentity(c: Cipher, ctx: Context, ch: Chance) returns (a: Answer)
      modifies this
      ensures (Now(), a) == ProvisionCall(c, old(Now()), ctx, ch)
    {
      var key := Open(World(tree, keychain), ctx);
      if key.Err? { return Err(key.error); }
      var existing := Get(c, tree, key.value);
      if existing.Err? || existing.value.Some? { return existing; }
      if ctx.osKeychain {
        var init := InitializeKeychain(ctx, ch);
        if init.Err? { return Err(init.error); }
      }
      key := Open(World(tree, keychain), ctx);
      if key.Err? { return Err(key.error); }
      var ok := SetTree(c, key.value, ch.freshIdentity, ch);
      return if ok then Ok(Some(ch.freshIdentity)) else Err(WriteFailed);
    }

    method ResolveIdentity(c: Cipher, ctx: Context, seed: Option<NodeIdentity>, ch: Chance) returns (a: Answer)
      modifies this
      ensures (Now(), a) == ResolveCall(c, old(Now()), ctx, seed, ch)
    {
      var key := Open(World(tree, keychain), ctx);
      if key.Err? { return Err(key.error); }
      var existing := Get(c, tree, key.value);
      if existing.Err? || existing.value.Some? { return existing; }
      var id := if seed.Some? then seed.value else ch.freshIdentity;
      var ok := SetTree(c, key.value, id, ch);
      return if ok then Ok(Some(id)) else Err(WriteFailed);
    }
  }
}
