/** The wallet: keys in memory, mirrored in a key store under their address texts. */
module Wallets {
  import opened Bits
  import opened Orders
  import opened Seqs
  import opened Wrappers
  import opened Addresses

  const WALLET_NAME_PREFIX := "wallet-"
  const DEFAULT_KEY_NAME := "default"

  datatype KeyType = Secp256k1Key | BlsKey | Libp2pHost | JwtHmacSecret | OtherKey(name: string)

  datatype KeyInfo = KeyInfo(kind: KeyType, privateKey: seq<Byte>)

  datatype Key = Key(info: KeyInfo, pubkey: seq<Byte>, address: Address)

  datatype WalletError = AddressFailed(error: AddressError) | CryptoFailed | UnknownKeyType

  /** What a call answers; it can also run into an `expect` or an `assert_eq`. */
  datatype Answer<+T> = Done(value: T) | Failed(error: WalletError) | Aborted

  /** Private key parsing followed by serialization, public keys, the address hash, and the address format. */
  datatype Env = Env(
    secpSecret: seq<Byte> -> Option<seq<Byte>>,
    secpPublic: seq<Byte> -> seq<Byte>,
    blsSecret: seq<Byte> -> Option<seq<Byte>>,
    blsPublic: seq<Byte> -> seq<Byte>,
    addressHash: seq<Byte> -> seq<Byte>,
    format: Format)
  {
    /** A serialized private key parses to itself. */
    ghost predicate Valid() {
      && format.Valid()
      && (forall x :: secpSecret(x).Some? ==> secpSecret(secpSecret(x).value) == secpSecret(x))
      && (forall x :: blsSecret(x).Some? ==> blsSecret(blsSecret(x).value) == blsSecret(x))
    }
  }

  // ---- keys ---------------------------------------------------------------------------------

  function NewSecp256k1Addr(env: Env, pubkey: seq<Byte>): (r: Result<Address, AddressError>) {
    if |pubkey| != 65 && |pubkey| != 64 && |pubkey| != 33 then Err(InvalidPayload)
    else New(Secp256k1, env.addressHash(pubkey))
  }

  function NewSecp256k1(env: Env, privkey: seq<Byte>): (r: Result<Key, WalletError>) {
    match env.secpSecret(privkey)
    case None => Err(CryptoFailed)
    case Some(secret) =>
      var pubkey := env.secpPublic(secret);
      match NewSecp256k1Addr(env, pubkey)
      case Err(e) => Err(AddressFailed(e))
      case Ok(address) => Ok(Key(KeyInfo(Secp256k1Key, secret), pubkey, address))
  }

  function NewBls(env: Env, privkey: seq<Byte>): (r: Result<Key, WalletError>) {
    match env.blsSecret(privkey)
    case None => Err(CryptoFailed)
    case Some(secret) =>
      var pubkey := env.blsPublic(secret);
      match New(Bls, pubkey)
      case Err(e) => Err(AddressFailed(e))
      case Ok(address) => Ok(Key(KeyInfo(BlsKey, secret), pubkey, address))
  }

  function NewKey(env: Env, info: KeyInfo): (r: Result<Key, WalletError>)
    ensures r.Ok? ==> Proper(r.value.address) && r.value.address.protocol != Id
    ensures r.Ok? ==> r.value.info.kind == info.kind
  {
    match info.kind
    case Secp256k1Key => NewSecp256k1(env, info.privateKey)
    case BlsKey => NewBls(env, info.privateKey)
    case _ => Err(UnknownKeyType)
  }

  /** A key is rebuilt from its own info. */
  lemma KeyRebuilt(env: Env, info: KeyInfo)
    requires env.Valid() && NewKey(env, info).Ok?
    ensures NewKey(env, NewKey(env, info).value.info) == NewKey(env, info)
  {
  }

  // ---- the wallet as a value ----------------------------------------------------------------

  datatype Wallet = Wallet(keys: map<Address, Key>, store: map<string, KeyInfo>)

  datatype Call =
    | Import(info: KeyInfo)
    | GenerateKey(kind: KeyType, secret: seq<Byte>)
    | SetDefault(address: Address)

  const EMPTY := Wallet(map[], map[])

  function Name(env: Env, a: Address): (s: string)
    requires a.protocol != Id
  {
    WALLET_NAME_PREFIX + Text(env.format, a).value
  }

  /** The key in memory and in the store. */
  function Add(env: Env, w: Wallet, key: Key): (r: Wallet)
    requires key.address.protocol != Id
  {
    Wallet(w.keys[key.address := key], w.store[Name(env, key.address) := key.info])
  }

  function WithDefault(w: Wallet, info: KeyInfo): (r: Wallet) {
    w.(store := w.store[DEFAULT_KEY_NAME := info])
  }

  function Step(env: Env, w: Wallet, call: Call): (r: Wallet) {
    match call
    case Import(info) =>
      (match NewKey(env, info)
       case Err(_) => w
       case Ok(key) => Add(env, w, key))
    case GenerateKey(kind, secret) =>
      (match NewKey(env, KeyInfo(kind, secret))
       case Err(_) => w
       case Ok(key) =>
         var added := Add(env, w, key);
         if key.address in w.keys || DEFAULT_KEY_NAME in added.store then added
         else WithDefault(added, key.info))
    case SetDefault(a) => if a in w.keys then WithDefault(w, w.keys[a].info) else w
  }

  /** The address a call answers with; generating a key aborts after storing when its address is held. */
  function Reply(env: Env, w: Wallet, call: Call): (r: Answer<Address>) {
    match call
    case Import(info) =>
      (match NewKey(env, info)
       case Err(e) => Failed(e)
       case Ok(key) => Done(key.address))
    case GenerateKey(kind, secret) =>
      (match NewKey(env, KeyInfo(kind, secret))
       case Err(e) => Failed(e)
       case Ok(key) => if key.address in w.keys then Aborted else Done(key.address))
    case SetDefault(a) => if a in w.keys then Done(a) else Aborted
  }

  function Run(env: Env, calls: seq<Call>): (w: Wallet) {
    if calls == [] then EMPTY else Step(env, Run(env, calls[..|calls| - 1]), calls[|calls| - 1])
  }

  function GetDefaultOf(env: Env, store: map<string, KeyInfo>): (r: Answer<Option<Address>>) {
    if DEFAULT_KEY_NAME !in store then Done(None)
    else
      match NewKey(env, store[DEFAULT_KEY_NAME])
      case Ok(key) => Done(Some(key.address))
      case Err(e) => Failed(e)
  }

  // ---- agreement of memory and store --------------------------------------------------------

  ghost predicate KeysOk(env: Env, w: Wallet) {
    forall a :: a in w.keys ==> w.keys[a].address == a && NewKey(env, w.keys[a].info) == Ok(w.keys[a])
  }

  /** The `wallet-` entries are the keys in memory, under their names. */
  ghost predicate Mirrored(env: Env, w: Wallet) {
    && KeysOk(env, w)
    && (forall a :: a in w.keys ==> Name(env, a) in w.store && w.store[Name(env, a)] == w.keys[a].info)
    && (forall name :: name in w.store ==>
        name == DEFAULT_KEY_NAME || exists a :: a in w.keys && name == Name(env, a))
  }

  /** A default is the info of a key whose address is held. */
  ghost predicate DefaultOk(env: Env, w: Wallet) {
    DEFAULT_KEY_NAME in w.store ==>
      var r := NewKey(env, w.store[DEFAULT_KEY_NAME]);
      r.Ok? && r.value.info == w.store[DEFAULT_KEY_NAME] && r.value.address in w.keys
  }

  ghost predicate Agrees(env: Env, w: Wallet) {
    Mirrored(env, w) && DefaultOk(env, w)
  }

  lemma NameInjective(env: Env, a: Address, b: Address)
    requires env.Valid() && Proper(a) && Proper(b) && a.protocol != Id && b.protocol != Id
    ensures Name(env, a) != DEFAULT_KEY_NAME && WALLET_NAME_PREFIX <= Name(env, a)
    ensures Name(env, a) == Name(env, b) ==> a == b
  {
    hide Text;
    var n := |WALLET_NAME_PREFIX|;
    TextRoundTrip(env.format, a);
    TextRoundTrip(env.format, b);
    assert Name(env, a)[0] == 'w';
    assert Name(env, a)[n..] == Text(env.format, a).value && Name(env, b)[n..] == Text(env.format, b).value;
    if Name(env, a) == Name(env, b) { TextInjective(env.format, a, b); }
  }

  lemma AddMirrored(env: Env, w: Wallet, key: Key)
    requires env.Valid() && Mirrored(env, w) && NewKey(env, key.info) == Ok(key)
    ensures Mirrored(env, Add(env, w, key))
  {
    hide NewKey, Name, Text;
    var r := Add(env, w, key);
    forall a | a in r.keys
      ensures Name(env, a) in r.store && r.store[Name(env, a)] == r.keys[a].info
    {
      assert NewKey(env, r.keys[a].info) == Ok(r.keys[a]);
      NameInjective(env, a, key.address);
    }
    forall name | name in r.store && name != DEFAULT_KEY_NAME
      ensures exists a :: a in r.keys && name == Name(env, a)
    {
      if name == Name(env, key.address) {
        assert key.address in r.keys;
      } else {
        var a :| a in w.keys && name == Name(env, a);
        assert a in r.keys;
      }
    }
  }

  lemma AddAgrees(env: Env, w: Wallet, key: Key)
    requires env.Valid() && Agrees(env, w) && NewKey(env, key.info) == Ok(key)
    ensures Agrees(env, Add(env, w, key))
  {
    hide NewKey, Name, Text, Mirrored;
    AddMirrored(env, w, key);
    NameInjective(env, key.address, key.address);
  }

  lemma DefaultAgrees(env: Env, w: Wallet, info: KeyInfo)
    requires env.Valid() && Agrees(env, w)
    requires exists a :: a in w.keys && w.keys[a].info == info
    ensures Agrees(env, WithDefault(w, info))
  {
    hide NewKey, Name, Text;
    forall a | a in w.keys
      ensures Name(env, a) != DEFAULT_KEY_NAME
    {
      assert NewKey(env, w.keys[a].info) == Ok(w.keys[a]);
      NameInjective(env, a, a);
    }
  }

  /** Every call keeps memory and store in agreement. */
  lemma StepAgrees(env: Env, w: Wallet, call: Call)
    requires env.Valid() && Agrees(env, w)
    ensures Agrees(env, Step(env, w, call))
  {
    hide NewKey, Name, Text, Agrees;
    match call
    case Import(info) =>
      if NewKey(env, info).Ok? {
        KeyRebuilt(env, info);
        AddAgrees(env, w, NewKey(env, info).value);
      }
    case GenerateKey(kind, secret) =>
      if NewKey(env, KeyInfo(kind, secret)).Ok? {
        KeyRebuilt(env, KeyInfo(kind, secret));
        var key := NewKey(env, KeyInfo(kind, secret)).value;
        AddAgrees(env, w, key);
        var added := Add(env, w, key);
        assert key.address in added.keys && added.keys[key.address].info == key.info;
        DefaultAgrees(env, added, key.info);
      }
    case SetDefault(a) =>
      if a in w.keys { DefaultAgrees(env, w, w.keys[a].info); }
  }

  lemma {:induction false} RunAgrees(env: Env, calls: seq<Call>)
    requires env.Valid()
    ensures Agrees(env, Run(env, calls))
  {
    if calls != [] {
      RunAgrees(env, calls[..|calls| - 1]);
      StepAgrees(env, Run(env, calls[..|calls| - 1]), calls[|calls| - 1]);
    }
  }

  /** After any run, the store holds exactly the keys under their names, and a default whose address is held. */
  lemma RunMirrored(env: Env, calls: seq<Call>, name: string)
    requires env.Valid()
    ensures
      var w := Run(env, calls);
      && KeysOk(env, w)
      && (name in w.store && WALLET_NAME_PREFIX <= name <==> exists a :: a in w.keys && name == Name(env, a))
      && (forall a :: a in w.keys ==> Name(env, a) in w.store && w.store[Name(env, a)] == w.keys[a].info)
      && match GetDefaultOf(env, w.store)
         case Done(None) => DEFAULT_KEY_NAME !in w.store
         case Done(Some(a)) => a in w.keys
         case _ => false
  {
    hide NewKey, Name, Text, Run;
    var w := Run(env, calls);
    RunAgrees(env, calls);
    assert DEFAULT_KEY_NAME[0] != WALLET_NAME_PREFIX[0];
    forall a | a in w.keys
      ensures WALLET_NAME_PREFIX <= Name(env, a)
    {
      assert NewKey(env, w.keys[a].info) == Ok(w.keys[a]);
      NameInjective(env, a, a);
    }
  }

  /** A default set is the default got, and the first key generated becomes the default. */
  lemma DefaultGot(env: Env, w: Wallet, call: Call)
    requires env.Valid() && Agrees(env, w) && Reply(env, w, call).Done?
    requires call.SetDefault? || (call.GenerateKey? && DEFAULT_KEY_NAME !in w.store)
    ensures GetDefaultOf(env, Step(env, w, call).store) == Done(Some(Reply(env, w, call).value))
  {
    hide NewKey, Name, Text;
    if call.GenerateKey? {
      var info := KeyInfo(call.kind, call.secret);
      KeyRebuilt(env, info);
      var key := NewKey(env, info).value;
      NameInjective(env, key.address, key.address);
    }
  }

  /** What one wallet exports, any wallet imports as the same key under the same address. */
  lemma ExportImport(env: Env, w: Wallet, other: Wallet, a: Address)
    requires Agrees(env, w) && a in w.keys
    ensures Reply(env, other, Import(w.keys[a].info)) == Done(a)
    ensures a in Step(env, other, Import(w.keys[a].info)).keys
    ensures Step(env, other, Import(w.keys[a].info)).keys[a] == w.keys[a]
  {
    assert NewKey(env, w.keys[a].info) == Ok(w.keys[a]);
  }

  // ---- what a wallet keeps ------------------------------------------------------------------

  /** The info a call makes a key of. */
  function InfoOf(call: Call): (info: KeyInfo)
    requires !call.SetDefault?
  {
    match call
    case Import(info) => info
    case GenerateKey(kind, secret) => KeyInfo(kind, secret)
  }

  /** Keys of other addresses, and store entries of other names but the default, are as before. */
  ghost predicate OthersKept(w: Wallet, r: Wallet, a: Address, name: string) {
    && (forall b :: b != a && b in w.keys ==> b in r.keys && r.keys[b] == w.keys[b])
    && (forall n :: n != name && n != DEFAULT_KEY_NAME ==>
          (n in r.store <==> n in w.store) && (n in w.store ==> r.store[n] == w.store[n]))
  }

  /** A key that an import or a generation makes is held from then on, in memory and in the store, under the address
      answered; nothing else is added, and no other key changes. A generation that finds its address held stores the
      key all the same, and aborts. */
  lemma MadeIsHeld(env: Env, w: Wallet, call: Call)
    requires env.Valid() && !call.SetDefault? && NewKey(env, InfoOf(call)).Ok?
    ensures
      var made, r := NewKey(env, InfoOf(call)).value, Step(env, w, call);
      var a := made.address;
      && Reply(env, w, call) == (if call.GenerateKey? && a in w.keys then Aborted else Done(a))
      && r.keys.Keys == w.keys.Keys + {a} && r.keys[a] == made
      && Name(env, a) in r.store && r.store[Name(env, a)] == made.info
      && OthersKept(w, r, a, Name(env, a))
  {
    hide NewKey, Name;
    var key := NewKey(env, InfoOf(call)).value;
    NameInjective(env, key.address, key.address);
  }

  function DefaultInfo(w: Wallet): (info: Option<KeyInfo>) {
    if DEFAULT_KEY_NAME in w.store then Some(w.store[DEFAULT_KEY_NAME]) else None
  }

  /** The default changes only when it is set to a held key, or by a generation while there is none. */
  lemma DefaultChanges(env: Env, w: Wallet, call: Call)
    requires env.Valid()
    ensures
      DefaultInfo(Step(env, w, call))
      == match call
         case Import(_) => DefaultInfo(w)
         case GenerateKey(kind, secret) =>
           var made := NewKey(env, KeyInfo(kind, secret));
           if made.Ok? && made.value.address !in w.keys && DefaultInfo(w).None? then Some(made.value.info)
           else DefaultInfo(w)
         case SetDefault(a) => if a in w.keys then Some(w.keys[a].info) else DefaultInfo(w)
  {
    hide NewKey, Name;
    if !call.SetDefault? && NewKey(env, InfoOf(call)).Ok? {
      var a := NewKey(env, InfoOf(call)).value.address;
      NameInjective(env, a, a);
    }
  }

  /** No other call adds an address: a failed one changes nothing, a generation that aborts finds its address held,
      and setting the default leaves the keys alone. */
  lemma OtherCallsAddNothing(env: Env, w: Wallet, call: Call)
    requires call.SetDefault? || !Reply(env, w, call).Done?
    ensures Step(env, w, call).keys.Keys == w.keys.Keys
    ensures Reply(env, w, call).Failed? ==> Step(env, w, call) == w
    ensures call.SetDefault? ==> Step(env, w, call).keys == w.keys
  {
    hide NewKey, Name;
  }

  /** The addresses that imports and generations have answered with. */
  function Given(env: Env, calls: seq<Call>): (addrs: set<Address>) {
    if calls == [] then {}
    else
      var before, last := calls[..|calls| - 1], calls[|calls| - 1];
      match Reply(env, Run(env, before), last)
      case Done(a) => if last.SetDefault? then Given(env, before) else Given(env, before) + {a}
      case _ => Given(env, before)
  }

  lemma AnsweredMade(env: Env, w: Wallet, call: Call)
    requires !call.SetDefault? && Reply(env, w, call).Done?
    ensures NewKey(env, InfoOf(call)).Ok? && NewKey(env, InfoOf(call)).value.address == Reply(env, w, call).value
  {
  }

  /** After every run the wallet holds exactly the addresses it has given. */
  lemma {:induction false} HeldAreGiven(env: Env, calls: seq<Call>)
    requires env.Valid()
    ensures Run(env, calls).keys.Keys == Given(env, calls)
  {
    hide Reply, Step;
    if calls != [] {
      var before, last := calls[..|calls| - 1], calls[|calls| - 1];
      HeldAreGiven(env, before);
      var w := Run(env, before);
      if !last.SetDefault? && Reply(env, w, last).Done? {
        AnsweredMade(env, w, last);
        MadeIsHeld(env, w, last);
      } else {
        OtherCallsAddNothing(env, w, last);
      }
    }
  }

  /** Of which kinds keys are made, and what their addresses are made of. */
  lemma KeyAddress(env: Env, info: KeyInfo)
    ensures
      match info.kind
      case Secp256k1Key =>
        (match env.secpSecret(info.privateKey)
         case None => NewKey(env, info) == Err(CryptoFailed)
         case Some(secret) =>
           var pubkey := env.secpPublic(secret);
           var hash := env.addressHash(pubkey);
           if |pubkey| in {33, 64, 65} && |hash| == 20
           then NewKey(env, info) == Ok(Key(KeyInfo(Secp256k1Key, secret), pubkey, Address(Secp256k1, hash)))
           else NewKey(env, info) == Err(AddressFailed(InvalidPayload)))
      case BlsKey =>
        (match env.blsSecret(info.privateKey)
         case None => NewKey(env, info) == Err(CryptoFailed)
         case Some(secret) =>
           var pubkey := env.blsPublic(secret);
           if |pubkey| == 48
           then NewKey(env, info) == Ok(Key(KeyInfo(BlsKey, secret), pubkey, Address(Bls, pubkey)))
           else NewKey(env, info) == Err(AddressFailed(InvalidPayload)))
      case _ => NewKey(env, info) == Err(UnknownKeyType)
  {
  }

  /** The names of the entries. */
  lemma NameText(env: Env, a: Address)
    requires a.protocol != Id
    ensures Name(env, a) == "wallet-" + Text(env.format, a).value
    ensures DEFAULT_KEY_NAME == "default"
  {
  }

  // ---- the default and its key --------------------------------------------------------------

  /** The default is the info of a key that is held. */
  ghost predicate DefaultHeld(w: Wallet) {
    DEFAULT_KEY_NAME in w.store ==> exists a :: a in w.keys && w.keys[a].info == w.store[DEFAULT_KEY_NAME]
  }

  /** A key that takes the address of the default's key, with another private key, leaves the default behind. */
  predicate Displaces(w: Wallet, key: Key) {
    && DEFAULT_KEY_NAME in w.store
    && key.address in w.keys
    && w.keys[key.address].info == w.store[DEFAULT_KEY_NAME]
    && w.keys[key.address].info != key.info
  }

  lemma ImportKeepsDefaultIff(env: Env, w: Wallet, info: KeyInfo)
    requires env.Valid() && Agrees(env, w) && DefaultHeld(w) && NewKey(env, info).Ok?
    ensures DefaultHeld(Step(env, w, Import(info))) <==> !Displaces(w, NewKey(env, info).value)
  {
    hide NewKey, Name, Text;
    var key := NewKey(env, info).value;
    var r := Step(env, w, Import(info));
    NameInjective(env, key.address, key.address);
    if DEFAULT_KEY_NAME in w.store {
      var d := w.store[DEFAULT_KEY_NAME];
      var a :| a in w.keys && w.keys[a].info == d;
      assert NewKey(env, d) == Ok(w.keys[a]) && w.keys[a].address == a;
      KeyRebuilt(env, info);
      forall b | b in r.keys && r.keys[b].info == d
        ensures b == a
      {
        assert NewKey(env, r.keys[b].info) == Ok(r.keys[b]) && r.keys[b].address == b;
      }
      if !Displaces(w, key) { assert a in r.keys && r.keys[a].info == d; }
    }
  }

  /** No two keys share an address. */
  ghost predicate CollisionFree(env: Env) {
    forall i, j :: (
        && NewKey(env, i).Ok?
        && NewKey(env, j).Ok?
        && NewKey(env, i).value.address == NewKey(env, j).value.address
      ) ==> NewKey(env, i) == NewKey(env, j)
  }

  lemma {:induction false} RunDefaultHeld(env: Env, calls: seq<Call>)
    requires env.Valid() && CollisionFree(env)
    ensures DefaultHeld(Run(env, calls))
  {
    hide NewKey, Name, Text, Run;
    var w := Run(env, calls);
    RunAgrees(env, calls);
    if DEFAULT_KEY_NAME in w.store {
      var key := NewKey(env, w.store[DEFAULT_KEY_NAME]).value;
      assert NewKey(env, w.keys[key.address].info) == Ok(w.keys[key.address]);
    }
  }

  /** Importing a second key with the address of the default's key leaves a default that is no held key. */
  lemma DefaultLeftBehind(env: Env, i: KeyInfo, j: KeyInfo)
    requires env.Valid() && NewKey(env, i).Ok? && NewKey(env, j).Ok?
    requires NewKey(env, i).value.address == NewKey(env, j).value.address && NewKey(env, i) != NewKey(env, j)
    ensures !DefaultHeld(Run(env, [GenerateKey(i.kind, i.privateKey), Import(j)]))
  {
    hide NewKey, Name, Text, Run;
    var generate := GenerateKey(i.kind, i.privateKey);
    var key := NewKey(env, i).value;
    var first := Step(env, EMPTY, generate);
    assert i == KeyInfo(i.kind, i.privateKey);
    KeyRebuilt(env, i);
    KeyRebuilt(env, j);
    StepAgrees(env, EMPTY, generate);
    NameInjective(env, key.address, key.address);
    assert first.keys[key.address] == key && first.store[DEFAULT_KEY_NAME] == key.info;
    ImportKeepsDefaultIff(env, first, j);
    RunTwo(env, generate, Import(j));
  }

  /** The default stays the info of a held key over every run exactly when no two keys share an address. */
  lemma DefaultHeldIff(env: Env)
    requires env.Valid()
    ensures CollisionFree(env) <==> forall calls :: DefaultHeld(Run(env, calls))
  {
    hide NewKey, Run, DefaultHeld;
    if CollisionFree(env) {
      forall calls { RunDefaultHeld(env, calls); }
    } else {
      var i, j :| NewKey(env, i).Ok? && NewKey(env, j).Ok? && NewKey(env, i) != NewKey(env, j)
        && NewKey(env, i).value.address == NewKey(env, j).value.address;
      DefaultLeftBehind(env, i, j);
    }
  }

  lemma RunTwo(env: Env, a: Call, b: Call)
    ensures Run(env, [a, b]) == Step(env, Step(env, EMPTY, a), b)
  {
    hide Step;
    assert [a, b][..1] == [a] && [a][..0] == [];
    assert Run(env, [a]) == Step(env, Run(env, []), a);
  }

  // ---- listing ------------------------------------------------------------------------------

  /** `trim_start_matches`: the prefix is taken off as often as it is there. */
  function Trim(name: string): (s: string)
    decreases |name|
  {
    if WALLET_NAME_PREFIX <= name then Trim(name[|WALLET_NAME_PREFIX|..]) else name
  }

  function Prepend(addrs: seq<Address>, rest: Answer<seq<Address>>): (r: Answer<seq<Address>>) {
    match rest
    case Done(more) => Done(addrs + more)
    case _ => rest
  }

  function Listed(env: Env, names: seq<string>): (r: Answer<seq<Address>>) {
    if names == [] then Done([])
    else if !(WALLET_NAME_PREFIX <= names[0]) then Listed(env, names[1..])
    else
      match Parse(env.format, Trim(names[0]))
      case Parsed(a) => Prepend([a], Listed(env, names[1..]))
      case Refused(e) => Failed(AddressFailed(e))
      case Panicked => Aborted
  }

  ghost predicate SortedNames(names: seq<string>, store: map<string, KeyInfo>) {
    multiset(names) == multiset(store.Keys) && SortedBy(Lex(CharLeq), names)
  }

  /** Trimming a name leaves the address text, which parses to the address. */
  lemma TrimName(env: Env, a: Address)
    requires env.Valid() && Proper(a) && a.protocol != Id
    ensures Parse(env.format, Trim(Name(env, a))) == Parsed(a)
  {
    var n := |WALLET_NAME_PREFIX|;
    TextRoundTrip(env.format, a);
    var text := Text(env.format, a).value;
    assert text[0] == Prefix(env.format.network) != WALLET_NAME_PREFIX[0];
    assert Name(env, a)[n..] == text;
    assert Trim(text) == text;
  }

  /** Listing store names gives each key as often as its name occurs, and nothing else. */
  lemma {:induction false} ListedCounts(env: Env, w: Wallet, names: seq<string>)
    requires env.Valid() && Agrees(env, w) && forall name :: name in names ==> name in w.store
    ensures Listed(env, names).Done?
    ensures forall a :: a in Listed(env, names).value ==> a in w.keys
    ensures forall a :: a in w.keys ==> multiset(Listed(env, names).value)[a] == multiset(names)[Name(env, a)]
  {
    hide NewKey, Name, Text, Listed, Agrees;
    if names == [] {
      ListedNothing(env);
    } else {
      ListedCounts(env, w, names[1..]);
      ListedHead(env, w, names);
      HeadName(env, w, names[0]);
      forall a | a in w.keys
        ensures multiset(Listed(env, names).value)[a] == multiset(names)[Name(env, a)]
      {
        ListedCount(env, w, names, a);
      }
    }
  }

  /** One more name counts for the address it names, and for no other. */
  lemma ListedCount(env: Env, w: Wallet, names: seq<string>, a: Address)
    requires env.Valid() && Agrees(env, w) && names != [] && names[0] in w.store && a in w.keys
    requires Listed(env, names[1..]).Done?
    requires multiset(Listed(env, names[1..]).value)[a] == multiset(names[1..])[Name(env, a)]
    ensures Listed(env, names).Done?
    ensures multiset(Listed(env, names).value)[a] == multiset(names)[Name(env, a)]
  {
    hide NewKey, Name, Text, Listed;
    MultisetTail(names);
    ListedHead(env, w, names);
    assert NewKey(env, w.keys[a].info) == Ok(w.keys[a]);
    NameInjective(env, a, a);
    if names[0] != DEFAULT_KEY_NAME {
      var b :| b in w.keys && names[0] == Name(env, b);
      assert NewKey(env, w.keys[b].info) == Ok(w.keys[b]);
      NameInjective(env, a, b);
    }
  }

  lemma ListedHead(env: Env, w: Wallet, names: seq<string>)
    requires env.Valid() && Agrees(env, w) && names != [] && names[0] in w.store
    ensures names[0] == DEFAULT_KEY_NAME ==> Listed(env, names) == Listed(env, names[1..])
    ensures forall a :: a in w.keys && names[0] == Name(env, a) ==>
      Listed(env, names) == Prepend([a], Listed(env, names[1..]))
  {
    hide NewKey, Name, Text, Parse, Trim;
    assert DEFAULT_KEY_NAME[0] != WALLET_NAME_PREFIX[0];
    forall a | a in w.keys && names[0] == Name(env, a)
      ensures Listed(env, names) == Prepend([a], Listed(env, names[1..]))
    {
      assert NewKey(env, w.keys[a].info) == Ok(w.keys[a]);
      NameInjective(env, a, a);
      TrimName(env, a);
    }
  }

  ghost predicate InOrder(env: Env, addrs: seq<Address>) {
    forall i, j :: 0 <= i < j < |addrs| ==>
      && addrs[i].protocol != Id
      && addrs[j].protocol != Id
      && LexLeq(CharLeq, Name(env, addrs[i]), Name(env, addrs[j]))
  }

  /** Whatever is listed comes no earlier than a name that precedes all names. */
  lemma ListedAfter(env: Env, w: Wallet, first: string, names: seq<string>, b: Address)
    requires env.Valid() && Agrees(env, w) && forall name :: name in names ==> name in w.store
    requires forall name :: name in names ==> LexLeq(CharLeq, first, name)
    requires Listed(env, names).Done? && b in Listed(env, names).value
    ensures b.protocol != Id && LexLeq(CharLeq, first, Name(env, b))
  {
    hide NewKey, Name, Text, Parse, Trim, Listed, LexLeq;
    ListedCounts(env, w, names);
    assert NewKey(env, w.keys[b].info) == Ok(w.keys[b]);
    assert b in multiset(Listed(env, names).value);
    assert Name(env, b) in multiset(names);
  }

  lemma {:induction false} ListedInOrder(env: Env, w: Wallet, names: seq<string>)
    requires env.Valid() && Agrees(env, w) && forall name :: name in names ==> name in w.store
    requires SortedBy(Lex(CharLeq), names)
    ensures Listed(env, names).Done? && InOrder(env, Listed(env, names).value)
  {
    hide NewKey, Name, Text, Parse, Trim, Listed, LexLeq, Agrees;
    ListedCounts(env, w, names);
    if names == [] {
      ListedNothing(env);
    } else {
      var rest := names[1..];
      ListedInOrder(env, w, rest);
      ListedHead(env, w, names);
      forall name | name in rest
        ensures LexLeq(CharLeq, names[0], name)
      {
        var k :| 0 <= k < |rest| && rest[k] == name;
        assert Lex(CharLeq)(names[0], names[k + 1]);
      }
      forall b | b in Listed(env, rest).value
        ensures b.protocol != Id && LexLeq(CharLeq, names[0], Name(env, b))
      {
        ListedAfter(env, w, names[0], rest, b);
      }
      HeadName(env, w, names[0]);
    }
  }

  lemma HeadName(env: Env, w: Wallet, name: string)
    requires env.Valid() && Agrees(env, w) && name in w.store
    ensures name == DEFAULT_KEY_NAME || exists a :: a in w.keys && a.protocol != Id && name == Name(env, a)
  {
    hide NewKey, Name, Text;
    if name != DEFAULT_KEY_NAME {
      var a :| a in w.keys && name == Name(env, a);
      assert NewKey(env, w.keys[a].info) == Ok(w.keys[a]);
    }
  }

  lemma ListedNothing(env: Env)
    ensures Listed(env, []) == Done([])
  {
  }

  /** The addresses listed are those held, each once, in the order of their names. */
  lemma ListedOnce(env: Env, w: Wallet, names: seq<string>)
    requires env.Valid() && Agrees(env, w) && SortedNames(names, w.store)
    ensures Listed(env, names).Done?
    ensures multiset(Listed(env, names).value) == multiset(w.keys.Keys)
    ensures InOrder(env, Listed(env, names).value)
  {
    hide NewKey, Name, Text, Parse, Trim, Listed, InOrder;
    forall name | name in names
      ensures name in w.store
    {
      assert name in multiset(names);
    }
    ListedCounts(env, w, names);
    ListedInOrder(env, w, names);
    var addrs := Listed(env, names).value;
    forall a
      ensures multiset(addrs)[a] == multiset(w.keys.Keys)[a]
    {
      if a in w.keys {
        assert multiset(w.store.Keys)[Name(env, a)] == 1;
      } else {
        assert a !in addrs;
      }
    }
  }

  // ---- the stores as objects ----------------------------------------------------------------

  class MemKeyStore {
    var entries: map<string, KeyInfo>

    constructor ()
      ensures entries == map[]
    {
      entries := map[];
    }

    /** The names, in whatever order the hash map gives them. */
    method List() returns (names: seq<string>)
      ensures multiset(names) == multiset(entries.Keys)
    {
      names := [];
      var rest := entries.Keys;
      while rest != {}
        invariant multiset(names) + multiset(rest) == multiset(entries.Keys)
      {
        var name :| name in rest;
        names := names + [name];
        rest := rest - {name};
      }
    }

    method Get(key: string) returns (info: Option<KeyInfo>)
      ensures info == if key in entries then Some(entries[key]) else None
    {
      info := if key in entries then Some(entries[key]) else None;
    }

    method Put(key: string, info: KeyInfo)
      modifies this
      ensures entries == old(entries)[key := info]
    {
      entries := entries[key := info];
    }

    method Delete(key: string)
      modifies this
      ensures entries == old(entries) - {key}
    {
      entries := entries - {key};
    }
  }

  class WalletImpl {
    const env: Env
    const keystore: MemKeyStore
    var keys: map<Address, Key>

    constructor (env: Env)
      requires env.Valid()
      ensures Valid() && this.env == env && fresh(keystore)
      ensures View() == EMPTY
    {
      this.env := env;
      keystore := new MemKeyStore();
      keys := map[];
    }

    ghost function View(): (w: Wallet)
      reads this, keystore
    {
      Wallet(keys, keystore.entries)
    }

    ghost predicate Valid()
      reads this, keystore
    {
      env.Valid() && Agrees(env, View())
    }

    method Import(info: KeyInfo) returns (r: Answer<Address>)
      requires Valid()
      modifies this, keystore
      ensures Valid()
      ensures View() == Step(env, old(View()), Call.Import(info))
      ensures r == Reply(env, old(View()), Call.Import(info))
    {
      StepAgrees(env, View(), Call.Import(info));
      var key := NewKey(env, info);
      if key.Err? {
        return Failed(key.error);
      }
      keystore.Put(Name(env, key.value.address), key.value.info);
      keys := keys[key.value.address := key.value];
      return Done(key.value.address);
    }

    /** `secret` is the private key drawn at random. */
    method GenerateKey(kind: KeyType, secret: seq<Byte>) returns (r: Answer<Address>)
      requires Valid()
      modifies this, keystore
      ensures Valid()
      ensures View() == Step(env, old(View()), Call.GenerateKey(kind, secret))
      ensures r == Reply(env, old(View()), Call.GenerateKey(kind, secret))
    {
      StepAgrees(env, View(), Call.GenerateKey(kind, secret));
      var key := NewKey(env, KeyInfo(kind, secret));
      if key.Err? {
        return Failed(key.error);
      }
      var address := key.value.address;
      keystore.Put(Name(env, address), key.value.info);
      var held := address in keys;
      keys := keys[address := key.value];
      if held {
        return Aborted;
      }
      var default := keystore.Get(DEFAULT_KEY_NAME);
      if default.None? {
        keystore.Put(DEFAULT_KEY_NAME, key.value.info);
      }
      return Done(address);
    }

    method SetDefault(a: Address) returns (r: Answer<Address>)
      requires Valid()
      modifies this, keystore
      ensures Valid()
      ensures View() == Step(env, old(View()), Call.SetDefault(a))
      ensures r == Reply(env, old(View()), Call.SetDefault(a))
    {
      hide Agrees, NewKey, Name;
      StepAgrees(env, View(), Call.SetDefault(a));
      if a !in keys {
        return Aborted;
      }
      var info := keys[a].info;
      keystore.Delete(DEFAULT_KEY_NAME);
      keystore.Put(DEFAULT_KEY_NAME, info);
      assert keystore.entries == old(keystore.entries)[DEFAULT_KEY_NAME := info];
      return Done(a);
    }

    method GetDefault() returns (r: Answer<Option<Address>>)
      requires Valid()
      ensures r == GetDefaultOf(env, keystore.entries)
      ensures r.Done? && (r.value.Some? ==> r.value.value in keys)
    {
      var info := keystore.Get(DEFAULT_KEY_NAME);
      if info.None? {
        return Done(None);
      }
      match info.value.kind {
        case Secp256k1Key => r := DefaultAddress(NewSecp256k1(env, info.value.privateKey));
        case BlsKey => r := DefaultAddress(NewBls(env, info.value.privateKey));
        case _ => r := Failed(UnknownKeyType);
      }
    }

    /** Each held address once, in the order of the names. */
    method ListAddrs() returns (r: Answer<seq<Address>>)
      requires Valid()
      ensures r.Done? && multiset(r.value) == multiset(keys.Keys) && InOrder(env, r.value)
    {
      hide Listed, InOrder, Agrees;
      var list := keystore.List();
      CharOrder();
      var names := Sort(Lex(CharLeq), list);
      ListedOnce(env, View(), names);
      r := ParseNames(env, names);
    }
  }

  method ParseNames(env: Env, names: seq<string>) returns (r: Answer<seq<Address>>)
    ensures r == Listed(env, names)
  {
    var res := [];
    var i := 0;
    assert names[0..] == names;
    PrependNone(res, Listed(env, names));
    while i < |names|
      invariant 0 <= i <= |names|
      invariant Listed(env, names) == Prepend(res, Listed(env, names[i..]))
    {
      assert names[i..][1..] == names[i + 1..];
      if WALLET_NAME_PREFIX <= names[i] {
        var text := TrimStart(names[i]);
        match Parse(env.format, text) {
          case Parsed(a) =>
            PrependOne(res, a, Listed(env, names[i + 1..]));
            res := res + [a];
          case Refused(e) => return Failed(AddressFailed(e));
          case Panicked => return Aborted;
        }
      }
      i := i + 1;
    }
    PrependNone(res, Done([]));
    return Done(res);
  }

  lemma PrependNone(addrs: seq<Address>, rest: Answer<seq<Address>>)
    ensures Prepend([], rest) == rest && Prepend(addrs, Done([])) == Done(addrs)
  {
    assert addrs + [] == addrs;
    if rest.Done? { assert [] + rest.value == rest.value; }
  }

  lemma PrependOne(addrs: seq<Address>, a: Address, rest: Answer<seq<Address>>)
    ensures Prepend(addrs, Prepend([a], rest)) == Prepend(addrs + [a], rest)
  {
    if rest.Done? { ConcatAssoc(addrs, [a], rest.value); }
  }

  function DefaultAddress(key: Result<Key, WalletError>): (r: Answer<Option<Address>>) {
    match key
    case Ok(k) => Done(Some(k.address))
    case Err(e) => Failed(e)
  }

  lemma CharOrder()
    ensures TotalPreorder(Lex(CharLeq))
  {
    CharTotal();
    LexTotal(CharLeq);
  }

  method TrimStart(name: string) returns (s: string)
    ensures s == Trim(name)
  {
    s := name;
    while WALLET_NAME_PREFIX <= s
      invariant Trim(s) == Trim(name)
      decreases |s|
    {
      s := s[|WALLET_NAME_PREFIX|..];
    }
  }
}
