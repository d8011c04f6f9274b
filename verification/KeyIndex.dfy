/**
 The JWKS index: nested loops over keys and allowed algorithms that must agree with linear search by
 algorithm and key id, whatever order the algorithm set iterates in. Decoding a key is a parameter.
 */
module KeyIndex {
  import opened Wrappers

  datatype Algorithm =
    HS256 | HS384 | HS512 | ES256 | ES384 | RS256 | RS384 | RS512 | PS256 | PS384 | PS512 | EdDSA

  datatype KeyUse = Signature | Encryption | OtherUse(useName: string)

  datatype KeyOperation =
    | Sign | Verify | Encrypt | Decrypt | WrapKey | UnwrapKey | DeriveKey | DeriveBits | OtherOperation(opName: string)

  /** The `alg` of a key: a signature algorithm, or one that no signature algorithm is named like. */
  datatype KeyAlgorithm = Signing(algorithm: Algorithm) | NotSigning(algName: string)

  datatype KeyType = RSA | EllipticCurve | OctetKeyPair | OctetKey

  datatype Jwk = Jwk(
    kid: Option<string>,
    keyUse: Option<KeyUse>,
    operations: Option<seq<KeyOperation>>,
    algorithm: Option<KeyAlgorithm>,
    keyType: KeyType,
    material: string)

  type DecodingKey = string
  type Decoder = Jwk -> Option<DecodingKey>
  type Index = map<Algorithm, map<string, DecodingKey>>

  datatype IndexError = InvalidSigningKey | NoUsableKey

  predicate TypeMatches(keyType: KeyType, algorithm: Algorithm) {
    match algorithm
    case RS256 => keyType.RSA?
    case RS384 => keyType.RSA?
    case RS512 => keyType.RSA?
    case PS256 => keyType.RSA?
    case PS384 => keyType.RSA?
    case PS512 => keyType.RSA?
    case ES256 => keyType.EllipticCurve?
    case ES384 => keyType.EllipticCurve?
    case EdDSA => keyType.OctetKeyPair?
    case _ => false
  }

  /** Sections 4.2 to 4.4 of RFC 7517: an absent `use`, `key_ops` or `alg` restricts nothing. */
  predicate Usable(key: Jwk, algorithm: Algorithm) {
    && (key.keyUse.None? || key.keyUse.value == Signature)
    && (key.operations.None? || Verify in key.operations.value)
    && (key.algorithm.None? || key.algorithm.value == Signing(algorithm))
    && TypeMatches(key.keyType, algorithm)
  }

  /** Symmetric keys and symmetric algorithms never qualify. */
  lemma OnlyAsymmetricKeysAreUsable(key: Jwk, algorithm: Algorithm)
    requires Usable(key, algorithm)
    ensures !key.keyType.OctetKey? && algorithm !in {HS256, HS384, HS512}
  {
  }

  predicate Matches(key: Jwk, algorithm: Algorithm, kid: string) {
    kid != "" && key.kid == Some(kid) && Usable(key, algorithm)
  }

  /** Linear search in document order. */
  function FirstMatch(keys: seq<Jwk>, algorithm: Algorithm, kid: string): Option<Jwk> {
    if keys == [] then None
    else
      var earlier := FirstMatch(keys[..|keys| - 1], algorithm, kid);
      if earlier.Some? then earlier
      else if Matches(keys[|keys| - 1], algorithm, kid) then Some(keys[|keys| - 1])
      else None
  }

  lemma {:induction false} FirstMatchIsFirst(keys: seq<Jwk>, algorithm: Algorithm, kid: string)
    ensures match FirstMatch(keys, algorithm, kid)
            case None => forall i | 0 <= i < |keys| :: !Matches(keys[i], algorithm, kid)
            case Some(key) => exists i :: 0 <= i < |keys| && keys[i] == key && Matches(key, algorithm, kid)
                                          && forall j | 0 <= j < i :: !Matches(keys[j], algorithm, kid)
  {
    if keys != [] {
      var n := |keys| - 1;
      FirstMatchIsFirst(keys[..n], algorithm, kid);
      if FirstMatch(keys[..n], algorithm, kid).None? && Matches(keys[n], algorithm, kid) {
        assert keys[n] == FirstMatch(keys, algorithm, kid).value;
      }
    }
  }

  lemma {:induction false} FirstMatchPersists(keys: seq<Jwk>, n: nat, algorithm: Algorithm, kid: string)
    requires n <= |keys| && FirstMatch(keys[..n], algorithm, kid).Some?
    ensures FirstMatch(keys, algorithm, kid) == FirstMatch(keys[..n], algorithm, kid)
    decreases |keys| - n
  {
    if n < |keys| {
      assert keys[..n + 1][..n] == keys[..n];
      FirstMatchPersists(keys, n + 1, algorithm, kid);
    } else {
      assert keys[..n] == keys;
    }
  }

  function Lookup(index: Index, algorithm: Algorithm, kid: string): Option<DecodingKey> {
    if algorithm in index && kid in index[algorithm] then Some(index[algorithm][kid]) else None
  }

  /** The key a verifier may use for this algorithm and key id. */
  function Selected(keys: seq<Jwk>, algorithms: set<Algorithm>, algorithm: Algorithm, kid: string): Option<Jwk> {
    if algorithm in algorithms then FirstMatch(keys, algorithm, kid) else None
  }

  ghost predicate SomeUndecodable(keys: seq<Jwk>, algorithms: set<Algorithm>, decode: Decoder) {
    exists algorithm, kid :: Selected(keys, algorithms, algorithm, kid).Some?
        && decode(Selected(keys, algorithms, algorithm, kid).value).None?
  }

  ghost predicate NothingSelected(keys: seq<Jwk>, algorithms: set<Algorithm>) {
    forall algorithm, kid :: Selected(keys, algorithms, algorithm, kid).None?
  }

  /** An index answers every lookup by linear search and decoding, and has no empty part. */
  ghost predicate Refines(index: Index, keys: seq<Jwk>, algorithms: set<Algorithm>, decode: Decoder) {
    && (forall algorithm, kid {:trigger Lookup(index, algorithm, kid)}
          {:trigger Selected(keys, algorithms, algorithm, kid)} ::
          match Selected(keys, algorithms, algorithm, kid)
          case None => Lookup(index, algorithm, kid) == None
          case Some(key) => decode(key).Some? && Lookup(index, algorithm, kid) == decode(key))
    && forall algorithm | algorithm in index :: index[algorithm] != map[]
  }

  /** What indexing a document must return: nothing here mentions an iteration order. */
  ghost predicate Indexes(keys: seq<Jwk>, algorithms: set<Algorithm>, decode: Decoder, r: Result<Index, IndexError>) {
    match r
    case Ok(index) => Refines(index, keys, algorithms, decode) && !NothingSelected(keys, algorithms)
    case Err(InvalidSigningKey) => SomeUndecodable(keys, algorithms, decode)
    case Err(NoUsableKey) => NothingSelected(keys, algorithms)
  }

  /** The result is therefore the same for every iteration order. */
  lemma IndexingIsDetermined(keys: seq<Jwk>, algorithms: set<Algorithm>, decode: Decoder,
          r: Result<Index, IndexError>, r': Result<Index, IndexError>)
    requires Indexes(keys, algorithms, decode, r) && Indexes(keys, algorithms, decode, r')
    ensures r == r'
  {
    if r.Ok? && r'.Ok? {
      var a, b := r.value, r'.value;
      forall algorithm, kid ensures Lookup(a, algorithm, kid) == Lookup(b, algorithm, kid) {
        assert Selected(keys, algorithms, algorithm, kid).None? || Selected(keys, algorithms, algorithm, kid).Some?;
      }
      SameLookupsSameIndex(a, b);
    }
  }

  lemma SameLookupsSameIndex(a: Index, b: Index)
    requires forall algorithm, kid :: Lookup(a, algorithm, kid) == Lookup(b, algorithm, kid)
    requires forall algorithm | algorithm in a :: a[algorithm] != map[]
    requires forall algorithm | algorithm in b :: b[algorithm] != map[]
    ensures a == b
  {
    forall algorithm
      ensures algorithm in a <==> algorithm in b
      ensures algorithm in a ==> a[algorithm] == b[algorithm]
    {
      if algorithm in a {
        var kid :| kid in a[algorithm];
        assert Lookup(a, algorithm, kid).Some?;
      }
      if algorithm in b {
        var kid :| kid in b[algorithm];
        assert Lookup(b, algorithm, kid).Some?;
      }
      if algorithm in a {
        forall kid ensures kid in a[algorithm] <==> kid in b[algorithm]
                   ensures kid in a[algorithm] ==> a[algorithm][kid] == b[algorithm][kid] {
          assert Lookup(a, algorithm, kid) == Lookup(b, algorithm, kid);
        }
        assert a[algorithm] == b[algorithm];
      }
    }
  }

  // ---------------------------------------------------------------- the loops

  function Elements(order: seq<Algorithm>): set<Algorithm> {
    set a | a in order
  }

  /** The index is right for the first `n` keys as far as this algorithm is concerned. */
  ghost predicate RightFor(index: Index, keys: seq<Jwk>, n: nat, decode: Decoder, algorithm: Algorithm)
    requires n <= |keys|
  {
    forall kid :: RightAt(index, keys[..n], decode, algorithm, kid)
  }

  ghost predicate RightAt(index: Index, keys: seq<Jwk>, decode: Decoder, algorithm: Algorithm, kid: string) {
    match FirstMatch(keys, algorithm, kid)
    case None => Lookup(index, algorithm, kid) == None
    case Some(key) => decode(key).Some? && Lookup(index, algorithm, kid) == decode(key)
  }

  ghost predicate WellKept(index: Index, order: seq<Algorithm>) {
    && (forall algorithm | algorithm in index :: algorithm in order)
    && forall algorithm | algorithm in index :: index[algorithm] != map[]
  }

  lemma OneKeyMore(keys: seq<Jwk>, n: nat, algorithm: Algorithm, kid: string)
    requires n < |keys|
    ensures FirstMatch(keys[..n + 1], algorithm, kid) ==
            if FirstMatch(keys[..n], algorithm, kid).Some? then FirstMatch(keys[..n], algorithm, kid)
            else if Matches(keys[n], algorithm, kid) then Some(keys[n]) else None
  {
    assert keys[..n + 1][..n] == keys[..n];
  }

  lemma UnmatchedKeysChangeNothing(index: Index, keys: seq<Jwk>, n: nat, decode: Decoder, algorithm: Algorithm)
    requires n < |keys| && RightFor(index, keys, n, decode, algorithm)
    requires forall kid :: Matches(keys[n], algorithm, kid) ==> Lookup(index, algorithm, kid).Some?
    ensures RightFor(index, keys, n + 1, decode, algorithm)
  {
    var more := keys[..n + 1];
    forall k ensures RightAt(index, more, decode, algorithm, k) {
      assert RightAt(index, keys[..n], decode, algorithm, k);
      OneKeyMore(keys, n, algorithm, k);
    }
  }

  lemma AddedKeysAreRight(index: Index, index': Index, keys: seq<Jwk>, n: nat, decode: Decoder, algorithm: Algorithm,
          kid: string, key: DecodingKey)
    requires n < |keys| && RightFor(index, keys, n, decode, algorithm)
    requires Matches(keys[n], algorithm, kid) && Lookup(index, algorithm, kid).None? && decode(keys[n]) == Some(key)
    requires forall k :: Lookup(index', algorithm, k) == if k == kid then Some(key) else Lookup(index, algorithm, k)
    ensures RightFor(index', keys, n + 1, decode, algorithm)
  {
    var more := keys[..n + 1];
    forall k ensures RightAt(index', more, decode, algorithm, k) {
      assert RightAt(index, keys[..n], decode, algorithm, k);
      OneKeyMore(keys, n, algorithm, k);
    }
  }

  lemma UndecodableKeysAreSelected(index: Index, keys: seq<Jwk>, n: nat, decode: Decoder, order: seq<Algorithm>,
          algorithm: Algorithm, kid: string)
    requires n < |keys| && RightFor(index, keys, n, decode, algorithm) && algorithm in order
    requires Matches(keys[n], algorithm, kid) && Lookup(index, algorithm, kid).None? && decode(keys[n]).None?
    ensures SomeUndecodable(keys, Elements(order), decode)
  {
    assert RightAt(index, keys[..n], decode, algorithm, kid);
    OneKeyMore(keys, n, algorithm, kid);
    FirstMatchPersists(keys, n + 1, algorithm, kid);
    assert Selected(keys, Elements(order), algorithm, kid) == Some(keys[n]);
  }

  lemma FinishedIndexesRefine(index: Index, keys: seq<Jwk>, order: seq<Algorithm>, decode: Decoder)
    requires WellKept(index, order) && forall a | a in order :: RightFor(index, keys, |keys|, decode, a)
    ensures Refines(index, keys, Elements(order), decode)
    ensures index == map[] <==> NothingSelected(keys, Elements(order))
  {
    assert keys[..|keys|] == keys;
    forall algorithm, kid
      ensures match Selected(keys, Elements(order), algorithm, kid)
              case None => Lookup(index, algorithm, kid) == None
              case Some(key) => decode(key).Some? && Lookup(index, algorithm, kid) == decode(key)
    {
      assert algorithm in order ==> RightAt(index, keys, decode, algorithm, kid);
    }
    if index != map[] {
      var algorithm :| algorithm in index;
      var kid :| kid in index[algorithm];
      assert Lookup(index, algorithm, kid).Some?;
      assert Selected(keys, Elements(order), algorithm, kid).Some?;
    }
  }

  lemma OtherAlgorithmsUnchanged(index: Index, index': Index, keys: seq<Jwk>, n: nat, decode: Decoder,
          algorithm: Algorithm)
    requires n <= |keys| && forall kid :: Lookup(index', algorithm, kid) == Lookup(index, algorithm, kid)
    ensures RightFor(index, keys, n, decode, algorithm) ==> RightFor(index', keys, n, decode, algorithm)
  {
    var known := keys[..n];
    forall kid | RightAt(index, known, decode, algorithm, kid) ensures RightAt(index', known, decode, algorithm, kid) {
    }
  }

  /** `index_keys`, for the iteration order `order` of the allowed algorithms. */
  method IndexKeys(keys: seq<Jwk>, order: seq<Algorithm>, decode: Decoder) returns (r: Result<Index, IndexError>)
    ensures Indexes(keys, Elements(order), decode, r)
  {
    var index: Index := map[];
    for n := 0 to |keys|
      invariant WellKept(index, order)
      invariant forall a | a in order :: RightFor(index, keys, n, decode, a)
    {
      var key := keys[n];
      if key.kid.None? || key.kid.value == "" {
        forall a | a in order ensures RightFor(index, keys, n + 1, decode, a) {
          UnmatchedKeysChangeNothing(index, keys, n, decode, a);
        }
        continue;
      }
      var kid := key.kid.value;
      var decodingKey: Option<DecodingKey> := None;
      for m := 0 to |order|
        invariant WellKept(index, order)
        invariant decodingKey.Some? ==> decode(key) == decodingKey
        invariant forall a | a in order[..m] :: RightFor(index, keys, n + 1, decode, a)
        invariant forall a | a in order && a !in order[..m] :: RightFor(index, keys, n, decode, a)
      {
        var algorithm := order[m];
        assert order[..m + 1] == order[..m] + [algorithm];
        assert forall a :: a in order[..m + 1] <==> a in order[..m] || a == algorithm;
        assert forall a | a in order[..m + 1] :: a in order;
        if algorithm in order[..m] {
          FirstMatchCovers(index, keys, n, decode, algorithm, kid);
        }
        if !Usable(key, algorithm) {
          if algorithm !in order[..m] {
            UnmatchedKeysChangeNothing(index, keys, n, decode, algorithm);
          }
          continue;
        }
        if algorithm in index && kid in index[algorithm] {
          if algorithm !in order[..m] {
            UnmatchedKeysChangeNothing(index, keys, n, decode, algorithm);
          }
          continue;
        }
        var decoded: DecodingKey;
        if decodingKey.Some? {
          decoded := decodingKey.value;
        } else {
          var attempt := decode(key);
          if attempt.None? {
            UndecodableKeysAreSelected(index, keys, n, decode, order, algorithm, kid);
            return Err(InvalidSigningKey);
          }
          decoded := attempt.value;
          decodingKey := Some(decoded);
        }
        ghost var before := index;
        var entry := if algorithm in index then index[algorithm] else map[];
        index := index[algorithm := entry[kid := decoded]];
        assert kid in index[algorithm];
        AddedKeysAreRight(before, index, keys, n, decode, algorithm, kid, decoded);
        forall a | a in order && a != algorithm
          ensures a in order[..m] ==> RightFor(index, keys, n + 1, decode, a)
          ensures a !in order[..m] ==> RightFor(index, keys, n, decode, a)
        {
          assert forall k :: Lookup(index, a, k) == Lookup(before, a, k);
          OtherAlgorithmsUnchanged(before, index, keys, n, decode, a);
          OtherAlgorithmsUnchanged(before, index, keys, n + 1, decode, a);
        }
      }
      assert order[..|order|] == order;
    }
    FinishedIndexesRefine(index, keys, order, decode);
    if index == map[] {
      return Err(NoUsableKey);
    }
    r := Ok(index);
  }

  /** Once key `n` was handled for an algorithm, its key id is taken there. */
  lemma FirstMatchCovers(index: Index, keys: seq<Jwk>, n: nat, decode: Decoder, algorithm: Algorithm, kid: string)
    requires n < |keys| && RightFor(index, keys, n + 1, decode, algorithm)
    ensures Matches(keys[n], algorithm, kid) ==> Lookup(index, algorithm, kid).Some?
  {
    assert RightAt(index, keys[..n + 1], decode, algorithm, kid);
    OneKeyMore(keys, n, algorithm, kid);
  }

  // ---------------------------------------------------------------- what the fields of a key do to the results

  /** What linear search finds for an algorithm and key id, decoded. */
  function Found(keys: seq<Jwk>, algorithms: set<Algorithm>, decode: Decoder, algorithm: Algorithm, kid: string)
    : Option<Option<DecodingKey>>
  {
    match Selected(keys, algorithms, algorithm, kid)
    case None => None
    case Some(key) => Some(decode(key))
  }

  /** Indexing the two documents has the same result. */
  ghost predicate SameResults(keys: seq<Jwk>, keys': seq<Jwk>, algorithms: set<Algorithm>, decode: Decoder) {
    forall r :: Indexes(keys, algorithms, decode, r) <==> Indexes(keys', algorithms, decode, r)
  }

  lemma SameFindsSameResults(keys: seq<Jwk>, keys': seq<Jwk>, algorithms: set<Algorithm>, decode: Decoder)
    requires forall algorithm, kid ::
               Found(keys, algorithms, decode, algorithm, kid) == Found(keys', algorithms, decode, algorithm, kid)
    ensures SameResults(keys, keys', algorithms, decode)
  {
    forall r | Indexes(keys, algorithms, decode, r) ensures Indexes(keys', algorithms, decode, r) {
      ResultsFollowFinds(keys, keys', algorithms, decode, r);
    }
    forall r | Indexes(keys', algorithms, decode, r) ensures Indexes(keys, algorithms, decode, r) {
      ResultsFollowFinds(keys', keys, algorithms, decode, r);
    }
  }

  lemma ResultsFollowFinds(keys: seq<Jwk>, keys': seq<Jwk>, algorithms: set<Algorithm>, decode: Decoder,
          r: Result<Index, IndexError>)
    requires forall algorithm, kid ::
               Found(keys, algorithms, decode, algorithm, kid) == Found(keys', algorithms, decode, algorithm, kid)
    requires Indexes(keys, algorithms, decode, r)
    ensures Indexes(keys', algorithms, decode, r)
  {
    hide Selected;
    forall algorithm, kid
      ensures Selected(keys', algorithms, algorithm, kid).None? <==> Selected(keys, algorithms, algorithm, kid).None?
      ensures Selected(keys, algorithms, algorithm, kid).Some? ==>
                decode(Selected(keys', algorithms, algorithm, kid).value)
                == decode(Selected(keys, algorithms, algorithm, kid).value)
    {
      assert Found(keys, algorithms, decode, algorithm, kid) == Found(keys', algorithms, decode, algorithm, kid);
    }
    if r == Err(InvalidSigningKey) {
      var algorithm, kid :| Selected(keys, algorithms, algorithm, kid).Some?
                            && decode(Selected(keys, algorithms, algorithm, kid).value).None?;
      assert decode(Selected(keys', algorithms, algorithm, kid).value).None?;
    }
  }

  function Without(keys: seq<Jwk>, i: nat): seq<Jwk>
    requires i < |keys|
  {
    keys[..i] + keys[i + 1..]
  }

  lemma {:induction false} UnmatchedKeysAreAbsent(keys: seq<Jwk>, i: nat, algorithm: Algorithm, kid: string)
    requires i < |keys| && !Matches(keys[i], algorithm, kid)
    ensures FirstMatch(keys, algorithm, kid) == FirstMatch(Without(keys, i), algorithm, kid)
  {
    var n := |keys| - 1;
    if i == n {
      assert Without(keys, i) == keys[..n];
    } else {
      UnmatchedKeysAreAbsent(keys[..n], i, algorithm, kid);
      assert Without(keys, i)[..n - 1] == Without(keys[..n], i);
    }
  }

  lemma {:induction false} ReplacedKeysAreFound(keys: seq<Jwk>, i: nat, key: Jwk, algorithm: Algorithm, kid: string,
          decode: Decoder)
    requires i < |keys| && Matches(keys[i], algorithm, kid) == Matches(key, algorithm, kid)
    requires decode(keys[i]) == decode(key)
    ensures var a, b := FirstMatch(keys, algorithm, kid), FirstMatch(keys[i := key], algorithm, kid);
            (a.None? <==> b.None?) && (a.Some? ==> decode(a.value) == decode(b.value))
  {
    var n := |keys| - 1;
    if i == n {
      assert keys[i := key][..n] == keys[..n];
    } else {
      ReplacedKeysAreFound(keys[..n], i, key, algorithm, kid, decode);
      assert keys[i := key][..n] == keys[..n][i := key];
    }
  }

  lemma KeyIsAsIfAbsent(keys: seq<Jwk>, i: nat, algorithms: set<Algorithm>, decode: Decoder)
    requires i < |keys| && forall algorithm, kid :: algorithm in algorithms ==> !Matches(keys[i], algorithm, kid)
    ensures SameResults(keys, Without(keys, i), algorithms, decode)
  {
    forall algorithm, kid
      ensures Found(keys, algorithms, decode, algorithm, kid)
              == Found(Without(keys, i), algorithms, decode, algorithm, kid)
    {
      if algorithm in algorithms {
        UnmatchedKeysAreAbsent(keys, i, algorithm, kid);
      }
    }
    SameFindsSameResults(keys, Without(keys, i), algorithms, decode);
  }

  lemma KeyIsAsIfReplaced(keys: seq<Jwk>, i: nat, key: Jwk, algorithms: set<Algorithm>, decode: Decoder)
    requires i < |keys| && decode(keys[i]) == decode(key)
    requires forall algorithm, kid | algorithm in algorithms ::
               Matches(keys[i], algorithm, kid) == Matches(key, algorithm, kid)
    ensures SameResults(keys, keys[i := key], algorithms, decode)
  {
    forall algorithm, kid
      ensures Found(keys, algorithms, decode, algorithm, kid)
              == Found(keys[i := key], algorithms, decode, algorithm, kid)
    {
      if algorithm in algorithms {
        ReplacedKeysAreFound(keys, i, key, algorithm, kid, decode);
      }
    }
    SameFindsSameResults(keys, keys[i := key], algorithms, decode);
  }

  /** `key_ops`: with `verify` among them a key counts as if it named none, otherwise as if it were not there. */
  lemma KeyOperationsDecide(keys: seq<Jwk>, i: nat, algorithms: set<Algorithm>, decode: Decoder)
    requires i < |keys| && keys[i].operations.Some? && decode(keys[i]) == decode(keys[i].(operations := None))
    ensures Verify in keys[i].operations.value ==>
              SameResults(keys, keys[i := keys[i].(operations := None)], algorithms, decode)
    ensures Verify !in keys[i].operations.value ==> SameResults(keys, Without(keys, i), algorithms, decode)
  {
    if Verify in keys[i].operations.value {
      KeyIsAsIfReplaced(keys, i, keys[i].(operations := None), algorithms, decode);
    } else {
      KeyIsAsIfAbsent(keys, i, algorithms, decode);
    }
  }

  /** `use`: a signature key counts as if it named none, any other use as if the key were not there. */
  lemma KeyUseDecides(keys: seq<Jwk>, i: nat, algorithms: set<Algorithm>, decode: Decoder)
    requires i < |keys| && keys[i].keyUse.Some? && decode(keys[i]) == decode(keys[i].(keyUse := None))
    ensures keys[i].keyUse == Some(Signature) ==>
              SameResults(keys, keys[i := keys[i].(keyUse := None)], algorithms, decode)
    ensures keys[i].keyUse != Some(Signature) ==> SameResults(keys, Without(keys, i), algorithms, decode)
  {
    if keys[i].keyUse == Some(Signature) {
      KeyIsAsIfReplaced(keys, i, keys[i].(keyUse := None), algorithms, decode);
    } else {
      KeyIsAsIfAbsent(keys, i, algorithms, decode);
    }
  }

  /** `alg`: under that algorithm a key counts as if it named none, under any other as if it were not there. */
  lemma KeyAlgorithmDecides(keys: seq<Jwk>, i: nat, algorithm: Algorithm, decode: Decoder)
    requires i < |keys| && keys[i].algorithm.Some? && decode(keys[i]) == decode(keys[i].(algorithm := None))
    ensures keys[i].algorithm == Some(Signing(algorithm)) ==>
              SameResults(keys, keys[i := keys[i].(algorithm := None)], {algorithm}, decode)
    ensures keys[i].algorithm != Some(Signing(algorithm)) ==> SameResults(keys, Without(keys, i), {algorithm}, decode)
  {
    if keys[i].algorithm == Some(Signing(algorithm)) {
      KeyIsAsIfReplaced(keys, i, keys[i].(algorithm := None), {algorithm}, decode);
    } else {
      KeyIsAsIfAbsent(keys, i, {algorithm}, decode);
    }
  }

  /** Which signatures a type of key can verify. */
  function AlgorithmsOf(keyType: KeyType): set<Algorithm> {
    match keyType
    case RSA => {RS256, RS384, RS512, PS256, PS384, PS512}
    case EllipticCurve => {ES256, ES384}
    case OctetKeyPair => {EdDSA}
    case OctetKey => {}
  }

  /** A key that restricts nothing is found under exactly the allowed algorithms of its type. */
  lemma UnrestrictedKeysAreFound(key: Jwk, algorithms: set<Algorithm>, decode: Decoder, r: Result<Index, IndexError>)
    requires key.keyUse.None? && key.operations.None? && key.algorithm.None?
    requires key.kid.Some? && key.kid.value != "" && decode(key).Some?
    requires Indexes([key], algorithms, decode, r)
    ensures var fitting := algorithms * AlgorithmsOf(key.keyType);
            if fitting == {} then r == Err(NoUsableKey)
            else r.Ok? && forall algorithm, kid ::
                   Lookup(r.value, algorithm, kid)
                   == if algorithm in fitting && key.kid == Some(kid) then decode(key) else None
  {
    var fitting := algorithms * AlgorithmsOf(key.keyType);
    forall algorithm, kid
      ensures Selected([key], algorithms, algorithm, kid) ==
              if algorithm in fitting && key.kid == Some(kid) then Some(key) else None
    {
      assert [key][..0] == [];
      assert FirstMatch([key], algorithm, kid) == if Matches(key, algorithm, kid) then Some(key) else None;
      assert TypeMatches(key.keyType, algorithm) <==> algorithm in AlgorithmsOf(key.keyType);
    }
    hide Selected, AlgorithmsOf;
    if algorithm :| algorithm in fitting {
      assert Selected([key], algorithms, algorithm, key.kid.value) == Some(key);
    }
  }

  /** Whatever an index holds comes from a key of the document that may verify signatures of that algorithm. */
  lemma IndexedKeysAllowVerifying(keys: seq<Jwk>, algorithms: set<Algorithm>, decode: Decoder, index: Index,
          algorithm: Algorithm, kid: string)
    requires Indexes(keys, algorithms, decode, Ok(index)) && Lookup(index, algorithm, kid).Some?
    ensures algorithm in algorithms && kid != ""
    ensures exists key ::
              && key in keys && key.kid == Some(kid) && decode(key) == Lookup(index, algorithm, kid)
              && (key.keyUse == None || key.keyUse == Some(Signature))
              && (key.operations == None || Verify in key.operations.value)
              && (key.algorithm == None || key.algorithm == Some(Signing(algorithm)))
              && algorithm in AlgorithmsOf(key.keyType)
  {
    var selected := Selected(keys, algorithms, algorithm, kid);
    FirstMatchIsFirst(keys, algorithm, kid);
    assert selected.Some?;
    assert selected.value in keys;
  }
}
