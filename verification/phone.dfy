/**
 * The phone normaliser: `+62` becomes a single leading `0`, and the first
 * four characters of the normalised number select a carrier from a fixed
 * table of number-range allocations.
 */
module Phone {
  import opened Text
  import opened Classifier

  /** The carrier prefix table, entry for entry. */
  const ProviderPrefix: map<string, string> := map[
    "0811" := "Telkomsel", "0812" := "Telkomsel", "0813" := "Telkomsel", "0821" := "Telkomsel",
    "0814" := "Indosat", "0815" := "Indosat", "0816" := "Indosat", "0855" := "Indosat",
    "0817" := "XL", "0818" := "XL", "0819" := "XL", "0895" := "Tri", "0896" := "Tri",
    "0881" := "Smartfren"
  ]

  datatype PhoneRecord = PhoneRecord(input: string, normalized: string, prefix: string, provider: string)

  /** The international prefix `+62` is replaced by one `0`; anything else is kept as it is. */
  function Normalize(phone: string): (norm: string)
    ensures "+62" <= phone ==> |norm| == |phone| - 2 && norm[0] == '0' && norm[1..] == phone[3..]
    ensures !("+62" <= phone) ==> norm == phone
  {
    if "+62" <= phone then "0" + phone[3..] else phone
  }

  /** `parse_phone`: the record of input, normalised form, its 4-character prefix and the carrier. */
  function ParsePhone(phone: string): (r: PhoneRecord)
    ensures r.input == phone && r.normalized == Normalize(phone)
    ensures r.prefix <= r.normalized && |r.prefix| == if |r.normalized| < 4 then |r.normalized| else 4
    ensures r.prefix in ProviderPrefix ==> r.provider == ProviderPrefix[r.prefix]
    ensures r.prefix !in ProviderPrefix ==> r.provider == Unknown
  {
    var norm := Normalize(phone);
    var prefix := if |norm| < 4 then norm else norm[..4];
    var provider := if prefix in ProviderPrefix then ProviderPrefix[prefix] else Unknown;
    PhoneRecord(phone, norm, prefix, provider)
  }

  /** The summary rows of a phone target, in the record's key order. */
  function PhoneSummary(r: PhoneRecord): (rows: seq<(string, string)>)
    ensures |rows| == 4 && rows[0] == ("input", r.input) && rows[1] == ("normalized", r.normalized)
    ensures rows[2] == ("prefix", r.prefix) && rows[3] == ("provider", r.provider)
  {
    [("input", r.input), ("normalized", r.normalized), ("prefix", r.prefix), ("provider", r.provider)]
  }

  /** Every key of the carrier table is `08` followed by two ASCII digits, and no carrier is named "unknown". */
  lemma ProviderTableShape()
    ensures forall k :: k in ProviderPrefix ==> |k| == 4 && k[..2] == "08" && AllDigits(k)
    ensures Unknown !in ProviderPrefix.Values
  {
  }

  /** The carrier is known exactly when the prefix is in the table. */
  lemma ProviderKnownIff(phone: string)
    ensures ParsePhone(phone).provider != Unknown <==> ParsePhone(phone).prefix in ProviderPrefix
  {
    ProviderTableShape();
    var r := ParsePhone(phone);
    if r.prefix in ProviderPrefix {
      assert r.provider in ProviderPrefix.Values;
    }
  }

  /**
   * The normal form of a valid phone number is a string of 9 to 15 ASCII
   * digits beginning with `0`; it is again a phone number exactly when the
   * digit after that zero is `8` and it has at least 10 digits.
   */
  lemma NormalizedShape(phone: string)
    requires IsPhone(phone)
    ensures var n := Normalize(phone);
      && 9 <= |n| <= 15 && n[0] == '0' && AllDigits(n)
      && (IsPhone(n) <==> n[1] == '8' && |n| >= 10)
  {
    PhoneMeaning(phone);
    var n := Normalize(phone);
    if phone[0] == '+' {
      forall i | 0 <= i < |n| ensures IsDigit(n[i]) {
        if i > 0 { assert n[i] == phone[3..][i - 1]; }
      }
    }
    PhoneMeaning(n);
    if n[1] == '8' && |n| >= 10 {
      assert n == "08" + n[2..];
      assert AllDigits(n[2..]) by {
        forall i | 0 <= i < |n[2..]| ensures IsDigit(n[2..][i]) { assert n[2..][i] == n[i + 2]; }
      }
    }
  }

  /** A local number is its own normal form, so it is searched as typed. */
  lemma LocalPhoneUnchanged(phone: string)
    requires IsPhone(phone) && phone[0] != '+'
    ensures Normalize(phone) == phone
  {
    PhoneMeaning(phone);
  }

  /** `+62` followed by a zero keeps that zero: the normal form then starts with two zeros. */
  lemma DoubleZeroExample()
    ensures IsPhone("+62" + "0812345678") && Normalize("+62" + "0812345678") == "0" + "0812345678"
  {
    var d := "0812345678";
    assert AllDigits(d);
    PhoneForms(d);
    assert ("+62" + d)[3..] == d;
  }

  /** Normalising twice changes nothing. */
  lemma NormalizeIdempotent(phone: string)
    ensures Normalize(Normalize(phone)) == Normalize(phone)
  {
  }

  /**
   * The international and the local spelling of the same number give the
   * same normal form, prefix and carrier.
   */
  lemma InternationalAndLocalAgree(rest: string)
    ensures var a, b := ParsePhone("+62" + rest), ParsePhone("0" + rest);
      a.normalized == b.normalized && a.prefix == b.prefix && a.provider == b.provider
  {
    assert ("+62" + rest)[3..] == rest;
  }

  /** The usage example `+62` then `81234567890` normalises to `0` then the same digits, a Telkomsel number. */
  lemma UsageExampleParsed()
    ensures var d := "81234567890";
      ParsePhone("+62" + d) == PhoneRecord("+62" + d, "0" + d, "0812", "Telkomsel")
  {
    var d := "81234567890";
    assert ("+62" + d)[3..] == d;
    assert ("0" + d)[..4] == "0812";
  }

  /** Prefix `0811` is a Telkomsel range; `0999` is not in the table. */
  lemma CarrierExamples()
    ensures ParsePhone("081112345678").provider == "Telkomsel"
    ensures ParsePhone("0999123456").provider == Unknown
  {
    assert "081112345678"[0] == '0';
    assert Normalize("081112345678") == "081112345678" && "081112345678"[..4] == "0811";
    assert ProviderPrefix["0811"] == "Telkomsel";
    assert Normalize("0999123456") == "0999123456" && "0999123456"[..4] == "0999";
    assert "0999" !in ProviderPrefix;
  }
}
