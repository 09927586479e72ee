/** The two fields ConfigManager::save() writes back into a configuration file it otherwise leaves alone. */
module ConfigManager {
  import opened Options
  import opened Replacement
  import opened ConfigPattern
  import opened PatchOrder
  import Base64

  const DEVICE_ID := "device_id"
  const TOKEN := "token"

  /** A dollar sign would start a reference in the replacement string. */
  predicate NoDollar(value: string) {
    forall i :: 0 <= i < |value| ==> value[i] != '$'
  }

  function Device(value: string): string {
    Canonical(DEVICE_ID, value)
  }

  function Token(value: string): string {
    Canonical(TOKEN, value)
  }

  /** The lines that a save writes, as the agent's configuration has them. */
  lemma FieldsAre(value: string)
    ensures Device(value) == "device_id = \"" + value + "\""
    ensures Token(value) == "token = \"" + value + "\""
  {
  }

  function Saved(deviceId: string, token: string, content: string): string {
    InOrder(Regex(DEVICE_ID), Device(deviceId), Regex(TOKEN), Token(token), content)
  }

  /**
   How the regular-expression library fills in a replacement string, for a text and the position
   and length of a match in it. A string without a dollar sign stands for itself.
   */
  type Format = (string, string, nat, nat) -> string

  ghost predicate Literal(format: Format) {
    forall text, content, i, n :: NoDollar(text) ==> format(text, content, i, n) == text
  }

  function Fill(format: Format, text: string, content: string): Filling {
    (i: nat, n: nat) => format(text, content, i, n)
  }

  function Replaced(format: Format, re: Pattern, text: string, content: string): string {
    Rewrite(re, Fill(format, text, content), content, 0)
  }

  /** What save() writes, whatever the values. */
  function Written(format: Format, deviceId: string, token: string, content: string): string {
    Replaced(format, Regex(TOKEN), Token(token), Replaced(format, Regex(DEVICE_ID), Device(deviceId), content))
  }

  lemma ReplacedLiterally(format: Format, re: Pattern, text: string, content: string)
    requires Literal(format) && NoDollar(text)
    ensures Replaced(format, re, text, content) == Patch(re, text, content)
  {
    RewriteIsPatch(re, Fill(format, text, content), text, content, 0);
    assert content[0..] == content;
  }

  lemma CanonicalNoDollar(key: string, value: string)
    requires NoDollar(key) && NoDollar(value)
    ensures NoDollar(Canonical(key, value))
  {
  }

  /** For values without a dollar sign, that is the two patches. */
  lemma WrittenIsSaved(format: Format, deviceId: string, token: string, content: string)
    requires Literal(format) && NoDollar(deviceId) && NoDollar(token)
    ensures Written(format, deviceId, token, content) == Saved(deviceId, token, content)
  {
    CanonicalNoDollar(DEVICE_ID, deviceId);
    CanonicalNoDollar(TOKEN, token);
    ReplacedLiterally(format, Regex(DEVICE_ID), Device(deviceId), content);
    ReplacedLiterally(format, Regex(TOKEN), Token(token), Patch(Regex(DEVICE_ID), Device(deviceId), content));
  }

  class ConfigManager {
    const format: Format
    var deviceId: string
    var tokenEncrypted: string
    /** The file behind config_path_: its text, and whether it opens for writing. */
    var file: Option<string>
    var writable: bool

    constructor (format: Format, deviceId: string, tokenEncrypted: string, file: Option<string>, writable: bool)
      ensures this.format == format && this.deviceId == deviceId && this.tokenEncrypted == tokenEncrypted
      ensures this.file == file && this.writable == writable
    {
      this.format, this.deviceId, this.tokenEncrypted := format, deviceId, tokenEncrypted;
      this.file, this.writable := file, writable;
    }

    method Save() returns (ok: bool)
      modifies this`file
      ensures ok == (old(file).Some? && writable)
      ensures file == if ok then Some(Written(format, deviceId, tokenEncrypted, old(file).value)) else old(file)
      ensures ok && Literal(format) && NoDollar(deviceId) && NoDollar(tokenEncrypted) ==>
        file == Some(Saved(deviceId, tokenEncrypted, old(file).value))
    {
      if file.None? {
        return false;
      }
      var content := file.value;
      content := RegexReplace(Regex(DEVICE_ID), Fill(format, Device(deviceId), content), content);
      content := RegexReplace(Regex(TOKEN), Fill(format, Token(tokenEncrypted), content), content);
      if !writable {
        return false;
      }
      file := Some(content);
      if Literal(format) && NoDollar(deviceId) && NoDollar(tokenEncrypted) {
        WrittenIsSaved(format, deviceId, tokenEncrypted, old(file).value);
      }
      return true;
    }

    method SetToken(plain: seq<Base64.byte>, iv: seq<Base64.byte>,
      seal: (seq<Base64.byte>, seq<Base64.byte>) -> seq<Base64.byte>)
      modifies this`tokenEncrypted
      ensures tokenEncrypted == Base64.EncryptToken(plain, iv, seal)
      ensures NoDollar(tokenEncrypted) && Fits(tokenEncrypted, DEVICE_ID) && NoOpening(TOKEN, tokenEncrypted)
    {
      tokenEncrypted := Base64.EncryptToken(plain, iv, seal);
      TokenFits(plain, iv, seal);
    }
  }

  // ---------------------------------------------------------------- what the values contain

  lemma MissesChar(value: string, key: string, i: nat)
    requires i < |key| && key[i] !in value
    ensures !Contains(value, key)
  {
    forall p: nat | p + i < |value|
      ensures value[p..][i] != key[i]
    {
      assert value[p..][i] == value[p + i];
    }
  }

  /** A value without one of the key's characters has no opening of the key. */
  lemma MissesOpening(value: string, key: string, i: nat)
    requires IsKey(key) && i < |key| && key[i] !in value
    ensures NoOpening(key, value)
  {
    forall p: nat | p <= |value|
      ensures Opening(key, value[p..] + "\"") == 0
    {
      var t := value[p..] + "\"";
      assert forall k :: 0 <= k < |t| ==> t[k] in value || t[k] == '"';
      assert !IsDelimiter(key[i]);
    }
  }

  lemma KeysSeparate()
    ensures Separate(DEVICE_ID, TOKEN)
  {
    MissesChar(DEVICE_ID, TOKEN, 0);
    MissesChar(TOKEN, DEVICE_ID, 0);
  }

  /** Lower-case hexadecimal digits and dashes, as generateUUID() prints them. */
  predicate IsUuid(value: string) {
    forall i :: 0 <= i < |value| ==> '0' <= value[i] <= '9' || 'a' <= value[i] <= 'f' || value[i] == '-'
  }

  lemma UuidFits(value: string)
    requires IsUuid(value)
    ensures NoDollar(value) && Fits(value, TOKEN) && NoOpening(DEVICE_ID, value)
  {
    MissesOpening(value, DEVICE_ID, 2);
    MissesOpening(value, TOKEN, 0);
  }

  /** An encrypted token may contain its own key, but never in front of an equals sign: 'n' does not precede padding. */
  lemma TokenFits(plain: seq<Base64.byte>, iv: seq<Base64.byte>,
    seal: (seq<Base64.byte>, seq<Base64.byte>) -> seq<Base64.byte>)
    ensures var token := Base64.EncryptToken(plain, iv, seal);
      NoDollar(token) && Fits(token, DEVICE_ID) && NoOpening(TOKEN, token)
  {
    var token := Base64.EncryptToken(plain, iv, seal);
    if plain != [] {
      Base64.EncodeShape(iv + seal(iv, plain));
      Base64.EncodePads(iv + seal(iv, plain));
    }
    EncodedFits(token);
  }

  lemma EncodedFits(token: string)
    requires (forall c :: c in token ==> Base64.InAlphabet(c) || c == '=') && Base64.PadsAfterZeros(token)
    ensures NoDollar(token) && Fits(token, DEVICE_ID) && NoOpening(TOKEN, token)
  {
    assert forall i :: 0 <= i < |token| ==> token[i] in token;
    MissesOpening(token, DEVICE_ID, 6);
    forall p: nat | p <= |token|
      ensures Opening(TOKEN, token[p..] + "\"") == 0
    {
      TokenNotBeforePadding(token, p);
    }
  }

  lemma TokenNotBeforePadding(token: string, p: nat)
    requires (forall i :: 0 <= i < |token| ==> Base64.InAlphabet(token[i]) || token[i] == '=')
    requires Base64.PadsAfterZeros(token) && p <= |token|
    ensures Opening(TOKEN, token[p..] + "\"") == 0
  {
    var t := token[p..] + "\"";
    assert forall k :: 0 <= k < |t| - 1 ==> t[k] == token[p + k];
    assert Base64.Lookup('n') == 39;
    if Opening(TOKEN, t) > 0 {
      OpeningGoesOn(TOKEN, t);
      assert t[4] == 'n';
    }
  }

  // ---------------------------------------------------------------- what a save leaves in the file

  /** Saving the same values again changes nothing, and every match of either key reads its value. */
  lemma SaveTwice(deviceId: string, token: string, content: string)
    requires Fits(deviceId, TOKEN) && NoOpening(DEVICE_ID, deviceId)
    requires Fits(token, DEVICE_ID) && NoOpening(TOKEN, token)
    ensures var once := Saved(deviceId, token, content);
      && Saved(deviceId, token, once) == once
      && EveryRead(Regex(DEVICE_ID), Device(deviceId), once)
      && EveryRead(Regex(TOKEN), Token(token), once)
  {
    KeysSeparate();
    RegexLocal(DEVICE_ID);
    CanonicalReads(DEVICE_ID, deviceId);
    CanonicalReads(TOKEN, token);
    OwnNotInside(DEVICE_ID, deviceId);
    OwnNotInside(TOKEN, token);
    OtherNotInside(DEVICE_ID, deviceId, TOKEN);
    OtherNotInside(TOKEN, token, DEVICE_ID);
    PatchMakesNoNew(DEVICE_ID, DEVICE_ID, deviceId);
    PatchMakesNoNew(DEVICE_ID, TOKEN, token);
    PatchMakesNoNew(TOKEN, TOKEN, token);
    BothTwice(Regex(DEVICE_ID), Device(deviceId), Regex(TOKEN), Token(token), content);
  }

  /** One patch keeps every character outside the matches of its key, in place, on any text. */
  lemma OutsideKept(key: string, value: string, content: string)
    requires IsKey(key) && NoQuote(value)
    ensures Outline(Regex(key), Patch(Regex(key), Canonical(key, value), content)) == Outline(Regex(key), content)
  {
    CanonicalReads(key, value);
    PatchMakesNoNew(key, key, value);
    OutlineKept(Regex(key), Canonical(key, value), content);
  }

  ghost predicate FieldsApart(content: string) {
    Untangled(Regex(DEVICE_ID), Regex(TOKEN), content)
  }

  /** On untangled text a save keeps every character outside the matches of both keys, in place. */
  lemma SaveKeepsOutside(deviceId: string, token: string, content: string)
    requires Fits(deviceId, TOKEN) && Fits(token, DEVICE_ID) && FieldsApart(content)
    ensures OutlineBoth(Regex(DEVICE_ID), Regex(TOKEN), Saved(deviceId, token, content)) ==
      OutlineBoth(Regex(DEVICE_ID), Regex(TOKEN), content)
  {
    KeysSeparate();
    KeysApart(DEVICE_ID, deviceId, TOKEN, token);
    PatchMakesNoNew(DEVICE_ID, DEVICE_ID, deviceId);
    PatchMakesNoNew(TOKEN, TOKEN, token);
    OutlineBothKept(Regex(DEVICE_ID), Device(deviceId), Regex(TOKEN), Token(token), content);
  }

  /** The two fields could be patched in either order exactly when no match starts inside one of the other key. */
  lemma OrderOfFields(content: string)
    ensures Commute(DEVICE_ID, TOKEN, content) <==> FieldsApart(content)
  {
    KeysSeparate();
    CommuteIffUntangled(DEVICE_ID, TOKEN, content);
  }

  /** Everything above, for the values the agent generates: a UUID and an encrypted token. */
  lemma GeneratedValues(deviceId: string, plain: seq<Base64.byte>, iv: seq<Base64.byte>,
    seal: (seq<Base64.byte>, seq<Base64.byte>) -> seq<Base64.byte>, content: string)
    requires IsUuid(deviceId)
    ensures var token := Base64.EncryptToken(plain, iv, seal);
      var once := Saved(deviceId, token, content);
      && Saved(deviceId, token, once) == once
      && EveryRead(Regex(DEVICE_ID), Device(deviceId), once)
      && EveryRead(Regex(TOKEN), Token(token), once)
      && (FieldsApart(content) ==> once == Patched(TOKEN, token, DEVICE_ID, deviceId, content))
  {
    var token := Base64.EncryptToken(plain, iv, seal);
    UuidFits(deviceId);
    TokenFits(plain, iv, seal);
    SaveTwice(deviceId, token, content);
    OrderOfFields(content);
    assert Saved(deviceId, token, content) == Patched(DEVICE_ID, deviceId, TOKEN, token, content);
  }

  /** Files in which the order matters: the quoted text of one field ends in the opening of the other. */
  lemma OrderCanMatter(value: string)
    requires NoQuote(value)
    ensures !Commute(DEVICE_ID, TOKEN, Canonical(TOKEN, DEVICE_ID + " = ") + (value + "\""))
  {
    KeysSeparate();
    EmbeddedTangles(TOKEN, DEVICE_ID, value);
    OrderOfFields(Canonical(TOKEN, DEVICE_ID + " = ") + (value + "\""));
    KeysExclusive(TOKEN, DEVICE_ID);
    UntangledSymmetric(Regex(TOKEN), Regex(DEVICE_ID), Canonical(TOKEN, DEVICE_ID + " = ") + (value + "\""));
  }

  // ---------------------------------------------------------------- which field comes first

  /** A token whose quoted text is the opening of a device field, and more text. */
  function TokenAround(text: string): string {
    TOKEN + " = \"" + text
  }

  lemma NoDeviceBefore(text: string)
    ensures |TokenAround(text)| == 9 + |text| && TokenAround(text)[9..] == text
    ensures NoMatchBefore(Regex(DEVICE_ID), TokenAround(text), 9)
  {
    var s := TokenAround(text);
    forall p: nat | p < 9
      ensures Match(Regex(DEVICE_ID), s[p..]) == 0
    {
      assert s[p..][0] == s[p] != 'd';
      if MatchLen(DEVICE_ID, s[p..]) > 0 {
        MatchStartsWithKey(DEVICE_ID, s[p..]);
      }
    }
  }

  lemma DevicePatched(deviceId: string, value: string)
    requires NoQuote(value)
    ensures Patch(Regex(DEVICE_ID), Device(deviceId), TokenAround(Device(value))) == TokenAround(Device(deviceId))
  {
    var found := Device(value);
    NoDeviceBefore(found);
    assert found == found + "";
    CanonicalMatches(DEVICE_ID, value, "");
    PatchFirst(Regex(DEVICE_ID), Device(deviceId), TokenAround(found), 9, found);
  }

  lemma TailOfQuoted(value: string, p: nat)
    requires p <= |value|
    ensures (value + "\"")[p..] == value[p..] + "\""
  {
  }

  lemma NoOpeningNoMatch(key: string, s: string)
    requires Opening(key, s) == 0
    ensures Match(Regex(key), s) == 0
  {
  }

  lemma QuotedHasNone(key: string, value: string)
    requires NoOpening(key, value)
    ensures NoMatchBefore(Regex(key), value + "\"", |value| + 1)
  {
    forall p: nat | p < |value| + 1
      ensures Match(Regex(key), (value + "\"")[p..]) == 0
    {
      TailOfQuoted(value, p);
      NoOpeningNoMatch(key, value[p..] + "\"");
    }
  }

  lemma QuotedStays(key: string, text: string, value: string)
    requires NoOpening(key, value)
    ensures Patch(Regex(key), text, value + "\"") == value + "\""
  {
    QuotedHasNone(key, value);
    PatchSkips(Regex(key), text, value + "\"", |value| + 1);
  }

  lemma AroundRegroups(a: string, b: string, value: string)
    ensures a + " = \"" + Canonical(b, value) == Canonical(a, b + " = ") + (value + "\"")
  {
  }

  lemma HeadPatched(key: string, value: string, former: string, rest: string)
    requires IsKey(key) && NoQuote(former) && Patch(Regex(key), Canonical(key, value), rest) == rest
    ensures Patch(Regex(key), Canonical(key, value), Canonical(key, former) + rest) == Canonical(key, value) + rest
  {
    CanonicalMatches(key, former, rest);
    PatchHead(Regex(key), Canonical(key, value), Canonical(key, former) + rest);
    assert (Canonical(key, former) + rest)[|Canonical(key, former)|..] == rest;
  }

  /** The device is saved first, then the token: seen on a token that embeds a device field. */
  lemma TokenIsSavedLast(deviceId: string, token: string, value: string)
    requires NoQuote(deviceId) && NoOpening(TOKEN, deviceId) && NoQuote(value)
    ensures Saved(deviceId, token, TokenAround(Device(value))) == Token(token) + (deviceId + "\"")
  {
    KeysSeparate();
    DevicePatched(deviceId, value);
    AroundRegroups(TOKEN, DEVICE_ID, deviceId);
    QuotedStays(TOKEN, Token(token), deviceId);
    OuterNoQuote(DEVICE_ID);
    HeadPatched(TOKEN, token, DEVICE_ID + " = ", deviceId + "\"");
  }
}
