/** The text form of a password hash: printing it and checking a password against it. Argon2id is a parameter. */
module HashText {
  import opened Options
  import opened Text
  import opened Base64

  const ARGON_VERSION := 19
  const ARGON_TIME := 1
  const ARGON_MEMORY := 64 * 1024
  const ARGON_THREADS := 4
  const ARGON_KEY_LEN := 32

  const MAX_UINT32 := 0xffff_ffff
  const MAX_UINT8 := 0xff

  datatype Params = Params(time: nat, memory: nat, threads: nat)

  /** password, salt, parameters, key length */
  type Kdf = (string, seq<Byte>, Params, nat) -> seq<Byte>

  const DEFAULTS := Params(ARGON_TIME, ARGON_MEMORY, ARGON_THREADS)

  /** The key function returns a key of the length asked for. */
  ghost predicate KeyLength(kdf: Kdf) {
    forall password, salt, params, n :: |kdf(password, salt, params, n)| == n
  }

  function PrintParams(p: Params): string {
    "m=" + Print(p.memory) + (",t=" + Print(p.time) + (",p=" + Print(p.threads)))
  }

  function Joined(a: string, b: string, c: string, d: string, e: string, f: string): string {
    a + ['$'] + (b + ['$'] + (c + ['$'] + (d + ['$'] + (e + ['$'] + f))))
  }

  function HashPassword(password: string, salt: seq<Byte>, kdf: Kdf): string {
    var key := kdf(password, salt, DEFAULTS, ARGON_KEY_LEN);
    Joined("", "argon2id", "v=" + Print(ARGON_VERSION), PrintParams(DEFAULTS), Encode(salt, false), Encode(key, false))
  }

  /** Scans literal text followed by an unsigned number. */
  function ScanField(text: string, literal: string, max: nat): Option<(nat, string)> {
    var s :- Expect(text, literal);
    ScanUint(s, max)
  }

  function ScanParams(text: string): Option<Params> {
    var (memory, afterMemory) :- ScanField(text, "m=", MAX_UINT32);
    var (time, afterTime) :- ScanField(afterMemory, ",t=", MAX_UINT32);
    var (threads, rest) :- ScanField(afterTime, ",p=", MAX_UINT8);
    Some(Params(time, memory, threads))
  }

  function ScanVersion(text: string): Option<int> {
    var s :- Expect(text, "v=");
    var (version, rest) :- ScanInt(s);
    Some(version)
  }

  /** Whether the password matches, or None for a text that is not a usable hash. */
  function VerifyPassword(password: string, encoded: string, kdf: Kdf): Option<bool> {
    var parts := Split(encoded, '$');
    if |parts| != 6 || parts[1] != "argon2id" then None
    else
      var version :- ScanVersion(parts[2]);
      if version != ARGON_VERSION then None
      else
        var params :- ScanParams(parts[3]);
        var salt :- Decode(parts[4], false);
        var key :- Decode(parts[5], false);
        Some(key == kdf(password, salt, params, |key|))
  }

  lemma ScanPrintedField(literal: string, n: nat, rest: string, max: nat)
    requires |rest| > 0 ==> !IsDigit(rest[0])
    ensures ScanField(literal + Print(n) + rest, literal, max) == if n <= max then Some((n, rest)) else None
  {
    assert literal + Print(n) + rest == literal + (Print(n) + rest);
    ExpectPrefix(literal, Print(n) + rest);
    ScanPrinted(n, rest, max);
  }

  /** Printed parameters scan back, whatever follows that is no digit, exactly if they are within the scanned widths. */
  lemma ScanPrintedParams(p: Params, rest: string)
    requires |rest| > 0 ==> !IsDigit(rest[0])
    ensures ScanParams(PrintParams(p) + rest) ==
            if p.memory < 4294967296 && p.time < 4294967296 && p.threads < 256 then Some(p) else None
  {
    var last := ",p=" + Print(p.threads) + rest;
    var middle := ",t=" + Print(p.time) + last;
    assert PrintParams(p) + rest == "m=" + Print(p.memory) + middle;
    ScanPrintedField("m=", p.memory, middle, MAX_UINT32);
    ScanPrintedField(",t=", p.time, last, MAX_UINT32);
    ScanPrintedField(",p=", p.threads, rest, MAX_UINT8);
  }

  lemma ScanPrintedVersion()
    ensures ScanVersion("v=" + Print(ARGON_VERSION)) == Some(ARGON_VERSION)
  {
    ExpectPrefix("v=", Print(ARGON_VERSION));
    ScanPrinted(ARGON_VERSION, "", 0);
    assert Print(ARGON_VERSION) + "" == Print(ARGON_VERSION);
  }

  lemma EncodedHasNoDollar(b: seq<Byte>)
    ensures '$' !in Encode(b, false)
  {
  }

  lemma ParamsHaveNoDollar(p: Params)
    ensures '$' !in PrintParams(p)
  {
  }

  lemma PrintedDefaults()
    ensures "v=" + Print(ARGON_VERSION) == "v=19" && PrintParams(DEFAULTS) == "m=65536,t=1,p=4"
  {
    assert Print(19) == Print(1) + "9";
    assert Print(655) == Print(65) + "5" && Print(65) == Print(6) + "5";
    assert Print(65536) == Print(6553) + "6" && Print(6553) == Print(655) + "3";
  }

  /** The text splits back into exactly the pieces that were printed. */
  lemma HashSplits(password: string, salt: seq<Byte>, kdf: Kdf)
    ensures Split(HashPassword(password, salt, kdf), '$') ==
            ["", "argon2id", "v=19", "m=65536,t=1,p=4", Encode(salt, false),
             Encode(kdf(password, salt, Params(1, 65536, 4), 32), false)]
  {
    PrintedDefaults();
    EncodedHasNoDollar(salt);
    EncodedHasNoDollar(kdf(password, salt, DEFAULTS, ARGON_KEY_LEN));
    ParamsHaveNoDollar(DEFAULTS);
    JoinedSplits("", "argon2id", "v=" + Print(ARGON_VERSION), PrintParams(DEFAULTS), Encode(salt, false),
                 Encode(kdf(password, salt, DEFAULTS, ARGON_KEY_LEN), false));
  }

  lemma JoinedSplits(a: string, b: string, c: string, d: string, e: string, f: string)
    requires '$' !in a && '$' !in b && '$' !in c && '$' !in d && '$' !in e && '$' !in f
    ensures Split(Joined(a, b, c, d, e, f), '$') == [a, b, c, d, e, f]
  {
    FirstThreeSplit(a, b, c, d + ['$'] + (e + ['$'] + f));
    LastThreeSplit(d, e, f);
  }

  lemma FirstThreeSplit(a: string, b: string, c: string, tail: string)
    requires '$' !in a && '$' !in b && '$' !in c
    ensures Split(a + ['$'] + (b + ['$'] + (c + ['$'] + tail)), '$') == [a, b, c] + Split(tail, '$')
  {
    var rest := Split(tail, '$');
    SplitStep(c, '$', tail);
    SplitStep(b, '$', c + ['$'] + tail);
    SplitStep(a, '$', b + ['$'] + (c + ['$'] + tail));
    assert [a] + ([b] + ([c] + rest)) == [a, b, c] + rest;
  }

  lemma LastThreeSplit(d: string, e: string, f: string)
    requires '$' !in d && '$' !in e && '$' !in f
    ensures Split(d + ['$'] + (e + ['$'] + f), '$') == [d, e, f]
  {
    SplitLast(f, '$');
    SplitStep(e, '$', f);
    SplitStep(d, '$', e + ['$'] + f);
  }

  /** The pieces of a usable hash. */
  predicate Parts(parts: seq<string>, params: Params, salt: seq<Byte>, key: seq<Byte>) {
    && |parts| == 6 && parts[1] == "argon2id"
    && ScanVersion(parts[2]) == Some(19) && ScanParams(parts[3]) == Some(params)
    && Decode(parts[4], false) == Some(salt) && Decode(parts[5], false) == Some(key)
  }

  ghost predicate Usable(parts: seq<string>) {
    exists params, salt, key :: Parts(parts, params, salt, key)
  }

  /** A check has an answer exactly for texts with such pieces; for all others it fails. */
  lemma UsableIff(password: string, text: string, kdf: Kdf)
    ensures VerifyPassword(password, text, kdf).Some? <==> Usable(Split(text, '$'))
  {
    var parts := Split(text, '$');
    if VerifyPassword(password, text, kdf).Some? {
      var params, salt, key := UsableParts(password, text, kdf);
    }
    forall params, salt, key | Parts(parts, params, salt, key) ensures VerifyPassword(password, text, kdf).Some? {
      VerifyParts(password, text, kdf, params, salt, key);
    }
  }

  lemma UsableParts(password: string, text: string, kdf: Kdf) returns (params: Params, salt: seq<Byte>, key: seq<Byte>)
    requires VerifyPassword(password, text, kdf).Some?
    ensures Parts(Split(text, '$'), params, salt, key)
  {
    var parts := Split(text, '$');
    params, salt, key := ScanParams(parts[3]).value, Decode(parts[4], false).value, Decode(parts[5], false).value;
  }

  lemma VerifyParts(password: string, text: string, kdf: Kdf, params: Params, salt: seq<Byte>, key: seq<Byte>)
    requires Parts(Split(text, '$'), params, salt, key)
    ensures VerifyPassword(password, text, kdf) == Some(key == kdf(password, salt, params, |key|))
  {
  }

  lemma HashParts(password: string, salt: seq<Byte>, kdf: Kdf)
    ensures Parts(Split(HashPassword(password, salt, kdf), '$'), DEFAULTS, salt,
            kdf(password, salt, DEFAULTS, ARGON_KEY_LEN))
  {
    HashSplits(password, salt, kdf);
    PrintedDefaults();
    ScanPrintedVersion();
    ScanPrintedParams(DEFAULTS, "");
    assert PrintParams(DEFAULTS) + "" == PrintParams(DEFAULTS);
    EncodedParts("v=" + Print(ARGON_VERSION), PrintParams(DEFAULTS), DEFAULTS, salt,
                 kdf(password, salt, DEFAULTS, ARGON_KEY_LEN));
  }

  lemma EncodedParts(version: string, printed: string, params: Params, salt: seq<Byte>, key: seq<Byte>)
    requires ScanVersion(version) == Some(ARGON_VERSION) && ScanParams(printed) == Some(params)
    ensures Parts(["", "argon2id", version, printed, Encode(salt, false), Encode(key, false)], params, salt, key)
  {
    RoundTrip(salt, false);
    RoundTrip(key, false);
  }

  /**
   * Checking any password against a printed hash compares its key with the key printed, under the salt and the
   * parameters printed: the hashed password is accepted, and another one exactly when its key is the same.
   */
  lemma HashRoundTrip(password: string, other: string, salt: seq<Byte>, kdf: Kdf)
    requires KeyLength(kdf)
    ensures VerifyPassword(password, HashPassword(password, salt, kdf), kdf) == Some(true)
    ensures VerifyPassword(other, HashPassword(password, salt, kdf), kdf) ==
            Some(kdf(password, salt, Params(1, 65536, 4), 32) == kdf(other, salt, Params(1, 65536, 4), 32))
  {
    var text, key := HashPassword(password, salt, kdf), kdf(password, salt, DEFAULTS, ARGON_KEY_LEN);
    HashParts(password, salt, kdf);
    VerifyParts(password, text, kdf, DEFAULTS, salt, key);
    VerifyParts(other, text, kdf, DEFAULTS, salt, key);
  }
}
