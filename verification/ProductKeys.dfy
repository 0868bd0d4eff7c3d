/** The product id encoding on the strings the tables hold, and why chain keys meet the indexer's assumption. */
module ProductKeys {
  import opened Prelude
  import opened Chains
  import opened Projection
  import opened IndexerSync
  import opened ProductIds

  function CodesOf(s: string): (r: seq<Code>)
    ensures |r| == |s| && forall i :: 0 <= i < |s| ==> r[i] == s[i] as int
  {
    if s == [] then [] else [s[0] as int] + CodesOf(s[1..])
  }

  function TextOf(codes: seq<Code>): (r: string)
    requires Scalar(codes)
    ensures |r| == |codes| && forall i :: 0 <= i < |codes| ==> r[i] as int == codes[i]
  {
    if codes == [] then [] else
    assert !Surrogate(codes[0]);
    [codes[0] as char] + TextOf(codes[1..])
  }

  lemma DigitsAreScalar(codes: seq<Code>)
    requires HexId(codes)
    ensures Scalar(codes)
  {
    forall i | 0 <= i < |codes| ensures !Surrogate(codes[i]) {
      if i >= 2 { assert IsDigit(codes[2..][i - 2]); }
    }
  }

  /** `canonical_hex` on a stored id. */
  function Canonical(id: string): Option<Key> {
    match CanonicalHex(CodesOf(id))
    case Err(_) => None
    case Ok(hex) =>
      CanonicalIsHexId(CodesOf(id));
      DigitsAreScalar(hex);
      Some(TextOf(hex))
  }

  /** A bytes32 key as the journal writes it: lower-case hexadecimal. */
  predicate JournalKey(k: Key) {
    HexId(CodesOf(k)) && LowerCodes(CodesOf(k)) == CodesOf(k)
  }

  lemma SameText(s: string, t: string)
    requires CodesOf(s) == CodesOf(t)
    ensures s == t
  {
    forall i | 0 <= i < |s| ensures s[i] == t[i] {
      assert CodesOf(s)[i] == CodesOf(t)[i];
    }
  }

  /** A stored id and its canonical form have the same canonical form. */
  lemma CanonicalTwice(id: string)
    requires Canonical(id).Some?
    ensures Canonical(Canonical(id).value) == Canonical(id) && JournalKey(Canonical(id).value)
  {
    var hex := CanonicalHex(CodesOf(id)).value;
    CanonicalIsHexId(CodesOf(id));
    DigitsAreScalar(hex);
    assert CodesOf(TextOf(hex)) == hex;
    CanonicalHexIdempotent(CodesOf(id));
    LowerOfHexId(hex);
  }

  /** A journaled key is its own canonical form, or the zero key the contracts refuse. */
  lemma JournalKeyFixed(k: Key)
    requires JournalKey(k)
    ensures Canonical(k) in {None, Some(k)}
  {
    var codes := CodesOf(k);
    if CanonicalHex(codes).Ok? {
      LowerOfHexId(codes);
      CanonicalIsHexId(codes);
      DigitsAreScalar(codes);
      assert CodesOf(TextOf(codes)) == codes;
      SameText(TextOf(codes), k);
    }
  }

  /** With this encoding every chain of bytes32 keys meets what the indexer assumes of keys. */
  lemma ChainKeysCanonical(cfg: Config, history: Hash -> View)
    requires forall s :: cfg.canonical(s) == Canonical(s)
    requires forall e :: Seen(history, e) ==> JournalKey(e.log.product)
    ensures CanonicalKeys(cfg, history)
  {
    forall e | Seen(history, e) ensures cfg.canonical(e.log.product) in {None, Some(e.log.product)} {
      JournalKeyFixed(e.log.product);
    }
  }

  /** The key whose first byte is b and whose other bytes are zero. */
  function KeyOf(b: Byte): (k: Key)
    requires b > 0
    ensures CodesOf(k) == Prefixed(ToHex([b] + Zeros(31)))
  {
    var codes := Prefixed(ToHex([b] + Zeros(31)));
    KeyCodes(b);
    DigitsAreScalar(codes);
    SameCodes(TextOf(codes), codes);
    TextOf(codes)
  }

  lemma KeyCodes(b: Byte)
    requires b > 0
    ensures var codes := Prefixed(ToHex([b] + Zeros(31))); HexId(codes) && CanonicalHex(codes) == Ok(codes)
  {
    var bytes := [b] + Zeros(31);
    assert bytes[0] != Zeros(32)[0];
    HexIdOf(bytes);
    CanonicalIsHexId(Prefixed(ToHex(bytes)));
  }

  lemma SameCodes(s: string, codes: seq<Code>)
    requires |s| == |codes| && forall i :: 0 <= i < |s| ==> s[i] as int == codes[i]
    ensures CodesOf(s) == codes
  {}

  /** Such a key is its own canonical form, and different bytes give different keys. */
  lemma KeyOfCanonical(b: Byte)
    requires b > 0
    ensures Canonical(KeyOf(b)) == Some(KeyOf(b))
  {
    KeyCodes(b);
    var codes := Prefixed(ToHex([b] + Zeros(31)));
    DigitsAreScalar(codes);
    SameCodes(TextOf(codes), codes);
    SameText(TextOf(codes), KeyOf(b));
  }

  lemma KeyByte(b: Byte)
    requires b > 0
    ensures var codes := CodesOf(KeyOf(b)); |codes| == 66 && AllDigits(codes[2..]) && FromHex(codes[2..])[0] == b
  {
    var bytes := [b] + Zeros(31);
    HexRoundTrip(bytes);
    assert CodesOf(KeyOf(b))[2..] == ToHex(bytes);
  }

  lemma KeysDiffer(a: Byte, b: Byte)
    requires a > 0 && b > 0 && a != b
    ensures KeyOf(a) != KeyOf(b)
  {
    KeyByte(a);
    KeyByte(b);
  }
}
