/**
 * The header parse of `torrent_filename`: in the first line of a
 * single-file BitTorrent descriptor, the bencoded string (decimal length,
 * a colon, then that many characters; the "bencoding" section of BitTorrent
 * BEP 3) that follows the key `4:name`.
 */
module Torrent {
  import opened Options
  import opened Text

  predicate IsDigit(c: char) {
    '0' <= c <= '9'
  }

  /** Every character is an ASCII digit (checked from the last character back, as numerals are read). */
  predicate AllDigits(s: string)
    decreases |s|
  {
    s == [] || (AllDigits(s[..|s| - 1]) && IsDigit(s[|s| - 1]))
  }

  /** Each character of an all-digit string is a digit. */
  lemma {:induction false} AllDigitsAt(s: string, i: nat)
    requires AllDigits(s) && i < |s|
    decreases |s|
    ensures IsDigit(s[i])
  {
    if i < |s| - 1 {
      AllDigitsAt(s[..|s| - 1], i);
    }
  }

  /** The value of an ASCII digit. */
  function DigitValue(c: char): (v: nat)
    ensures v < 10
    ensures IsDigit(c) ==> c == ('0' as nat + v) as char
  {
    if IsDigit(c) then c as nat - '0' as nat else 0
  }

  function Pow10(n: nat): (r: nat)
    ensures r >= 1
  {
    if n == 0 then 1 else 10 * Pow10(n - 1)
  }

  /**
   * The value of a decimal numeral, as Python's `int()` reads a string of ASCII
   * digits: below 10 to the number of digits, and at least 10 to one less
   * when the numeral has no leading zero.
   */
  function DecimalValue(s: string): (v: nat)
    decreases |s|
    ensures v < Pow10(|s|)
    ensures AllDigits(s) && s != [] && s[0] != '0' ==> Pow10(|s| - 1) <= v
  {
    if s == [] then 0
    else
      var init := s[..|s| - 1];
      assert |s| > 1 ==> init[0] == s[0];
      DecimalValue(init) * 10 + DigitValue(s[|s| - 1])
  }

  /** `str(n)`: the decimal numeral of `n`, without leading zeros. */
  function Decimal(n: nat): (r: string)
    ensures r != [] && AllDigits(r)
  {
    if n < 10 then
      var r := [('0' as nat + n) as char];
      assert AllDigits(r[..0]) && IsDigit(r[0]);
      r
    else
      var r := Decimal(n / 10) + [('0' as nat + n % 10) as char];
      assert r[..|r| - 1] == Decimal(n / 10);
      r
  }

  /** Reading a numeral back gives the number written. */
  lemma {:induction false} DecimalRoundTrip(n: nat)
    ensures DecimalValue(Decimal(n)) == n
  {
    if n >= 10 {
      DecimalRoundTrip(n / 10);
      var d := Decimal(n);
      assert d[..|d| - 1] == Decimal(n / 10);
    }
  }

  /** The numeral of a positive number does not start with `0`. */
  lemma {:induction false} DecimalLead(n: nat)
    requires n >= 1
    ensures Decimal(n)[0] != '0'
  {
    if n >= 10 {
      DecimalLead(n / 10);
      assert Decimal(n)[0] == Decimal(n / 10)[0];
    }
  }

  /** `str(n)` has exactly as many digits as `n` needs: no more, and no fewer. */
  lemma {:induction false} DecimalLength(n: nat)
    ensures n < Pow10(|Decimal(n)|)
    ensures n >= 1 ==> Pow10(|Decimal(n)| - 1) <= n
  {
    DecimalRoundTrip(n);
    if n >= 1 {
      DecimalLead(n);
    }
  }

  /**
   * Python 2's `int()` on a string, for the numerals it reads as non-negative:
   * surrounding whitespace is skipped, and a leading `+` is allowed with
   * whitespace after it; `None` where `int()` raises (or reads a negative
   * number, which is not modelled). A number is read only from text that
   * holds a digit and nothing but digits, whitespace and `+`.
   */
  function ReadInt(s: string): (r: Option<nat>)
    decreases |s|
    ensures r.Some? ==> s != []
  {
    if s != [] && IsSpace(s[0]) then ReadInt(s[1..])
    else if s != [] && IsSpace(s[|s| - 1]) then ReadInt(s[..|s| - 1])
    else
      var d := s[if s != [] && s[0] == '+' then 1 + StripStart(s[1..]) else 0..];
      if d != [] && AllDigits(d) then Some(DecimalValue(d)) else None
  }

  /** A number is read only from text that holds a digit and nothing but digits, whitespace and `+`. */
  lemma {:induction false} ReadIntChars(s: string)
    decreases |s|
    ensures ReadInt(s).Some? ==> exists i :: 0 <= i < |s| && IsDigit(s[i])
    ensures ReadInt(s).Some? ==> forall i :: 0 <= i < |s| ==> IsDigit(s[i]) || IsSpace(s[i]) || s[i] == '+'
  {
    if ReadInt(s).Some? {
      if IsSpace(s[0]) {
        ReadIntChars(s[1..]);
        assert forall i :: 1 <= i < |s| ==> s[i] == s[1..][i - 1];
      } else if IsSpace(s[|s| - 1]) {
        ReadIntChars(s[..|s| - 1]);
        assert forall i :: 0 <= i < |s| - 1 ==> s[i] == s[..|s| - 1][i];
      } else {
        var k := if s[0] == '+' then 1 + StripStart(s[1..]) else 0;
        var d := s[k..];
        AllDigitsEvery(d);
        assert IsDigit(s[k]) by { assert s[k] == d[0]; }
        assert forall i :: k <= i < |s| ==> s[i] == d[i - k];
        assert forall i :: 0 < i < k ==> s[i] == s[1..][i - 1];
      }
    }
  }

  /** Each character of an all-digit string is a digit. */
  lemma {:induction false} AllDigitsEvery(s: string)
    requires AllDigits(s)
    ensures forall i :: 0 <= i < |s| ==> IsDigit(s[i])
  {
    forall i | 0 <= i < |s| ensures IsDigit(s[i]) {
      AllDigitsAt(s, i);
    }
  }

  /** A plain numeral reads as its value. */
  lemma {:induction false} ReadIntDigits(d: string)
    requires d != [] && AllDigits(d)
    ensures ReadInt(d) == Some(DecimalValue(d))
  {
    AllDigitsAt(d, 0);
    AllDigitsAt(d, |d| - 1);
  }

  /** A numeral after a plus sign and whitespace, with whitespace around, reads as its value. */
  lemma {:induction false} ReadIntSigned(lead: string, gap: string, d: string, trail: string)
    requires AllSpace(lead) && AllSpace(gap) && AllSpace(trail)
    requires d != [] && AllDigits(d)
    ensures ReadInt(lead + ("+" + gap + d) + trail) == Some(DecimalValue(d))
  {
    var t := "+" + gap + d;
    AllDigitsAt(d, |d| - 1);
    assert t[|t| - 1] == d[|d| - 1];
    ReadIntLead(lead, t + trail);
    ReadIntTrail(t, trail);
    assert lead + t + trail == lead + (t + trail);
    AllDigitsAt(d, 0);
    GapStart(gap, d);
    assert t[1..] == gap + d && t[1 + |gap|..] == d;
  }

  /** Whitespace before text that starts with something else is skipped. */
  lemma {:induction false} ReadIntLead(lead: string, t: string)
    requires AllSpace(lead) && t != [] && !IsSpace(t[0])
    decreases |lead|
    ensures ReadInt(lead + t) == ReadInt(t)
  {
    if lead != [] {
      assert (lead + t)[0] == lead[0] && (lead + t)[1..] == lead[1..] + t;
      ReadIntLead(lead[1..], t);
    } else {
      assert lead + t == t;
    }
  }

  /** Whitespace after text that neither starts nor ends with whitespace is skipped. */
  lemma {:induction false} ReadIntTrail(t: string, trail: string)
    requires AllSpace(trail) && t != [] && !IsSpace(t[0]) && !IsSpace(t[|t| - 1])
    decreases |trail|
    ensures ReadInt(t + trail) == ReadInt(t)
  {
    if trail != [] {
      var s := t + trail;
      assert s[0] == t[0] && s[|s| - 1] == trail[|trail| - 1];
      assert s[..|s| - 1] == t + trail[..|trail| - 1];
      ReadIntTrail(t, trail[..|trail| - 1]);
    } else {
      assert t + trail == t;
    }
  }

  /** Whitespace before a digit is skipped exactly. */
  lemma {:induction false} GapStart(gap: string, d: string)
    requires AllSpace(gap) && d != [] && !IsSpace(d[0])
    decreases |gap|
    ensures StripStart(gap + d) == |gap|
  {
    if gap != [] {
      assert (gap + d)[1..] == gap[1..] + d;
      GapStart(gap[1..], d);
    } else {
      assert gap + d == d;
    }
  }

  /** Where the name starts (just after the field's colon) and the length the field declares. */
  datatype NameField = NameField(start: nat, length: nat)

  /** The key that precedes the name in the header's info dictionary; it is 6 characters long. */
  const NameKey: string := "4:name"

  /** The key whose presence marks a header as a descriptor's. */
  const PiecesKey: string := "6:pieces"

  /**
   * The length field of the name: it starts just after the first `4:name`
   * and runs to the first `:` after that; `None` when the key or the colon is
   * missing or `int()` cannot read the field.
   */
  function ParseNameField(header: string): (r: Option<NameField>)
    ensures r.Some? ==> 0 < r.value.start <= |header| && header[r.value.start - 1] == ':'
  {
    match FindFrom(header, NameKey, 0)
    case None => None
    case Some(key) => LengthFieldAfter(header, key)
  }

  /**
   * The length field after the key that starts at `key`: from `key + 6`, the
   * end of the key, up to the first `:` after it; `None` when no `:` follows.
   */
  function LengthFieldAfter(header: string, key: nat): (r: Option<NameField>)
    ensures r.Some? ==> 0 < r.value.start <= |header| && header[r.value.start - 1] == ':'
    ensures r.Some? ==> key + 6 < r.value.start && forall i :: key + 6 <= i < r.value.start - 1 ==> header[i] != ':'
    ensures (forall i :: key + 6 <= i < |header| ==> header[i] != ':') ==> r.None?
  {
    match FindCharFrom(header, ':', key + 6)
    case None => None
    case Some(colon) => FieldBefore(header, key + 6, colon)
  }

  /** The length field `header[start..colon]`, when `int()` reads it. */
  function FieldBefore(header: string, start: nat, colon: nat): (r: Option<NameField>)
    requires start <= colon < |header|
    ensures r.Some? ==> r.value.start == colon + 1
  {
    match ReadInt(header[start..colon])
    case None => None
    case Some(n) => Some(NameField(colon + 1, n))
  }

  /**
   * The name `field` declares: the characters from its start, as many as
   * declared, or fewer where the header ends first.
   */
  function NameFrom(header: string, field: NameField): (r: string)
    requires field.start <= |header|
    ensures |r| <= field.length && OccursAt(header, r, field.start)
    ensures field.start + field.length <= |header| ==> |r| == field.length
  {
    var end := if field.start + field.length <= |header| then field.start + field.length else |header|;
    header[field.start..end]
  }

  /**
   * The file name a descriptor header declares: `None` without `6:pieces` or
   * without a readable name field; otherwise the name the field declares.
   */
  function TorrentFilename(header: string): (r: Option<string>)
    ensures r.None? <==> !Contains(header, PiecesKey) || ParseNameField(header).None?
    ensures r.Some? ==> r.value == NameFrom(header, ParseNameField(header).value)
    ensures r.Some? ==> |r.value| <= ParseNameField(header).value.length
  {
    if !Contains(header, PiecesKey) then None
    else
      match ParseNameField(header)
      case None => None
      case Some(field) => Some(NameFrom(header, field))
  }

  /** A file name is found only in a header that holds both keys. */
  lemma {:induction false} TorrentFilenameNeedsKeys(header: string)
    ensures TorrentFilename(header).Some? ==> Contains(header, PiecesKey) && Contains(header, NameKey)
  {
    FindFromFirst(header, NameKey, 0);
    if TorrentFilename(header).Some? {
      var key := FindFrom(header, NameKey, 0).value;
      assert key <= |header| && OccursAt(header, NameKey, key);
    }
  }

  /** Without a `:` after the first `4:name` there is no file name. */
  lemma {:induction false} NoColonNoName(header: string)
    requires FindFrom(header, NameKey, 0).Some?
    requires FindCharFrom(header, ':', FindFrom(header, NameKey, 0).value + 6).None?
    ensures TorrentFilename(header) == None
  {
  }

  /**
   * The field parse as the code is written: when no `:` follows the key,
   * `find` returns -1, the field is read from `header[key + 6:-1]` (all but
   * the last character) and the name is taken from index 0.
   */
  function ParseNameFieldAsWritten(header: string): (r: Option<NameField>)
    ensures r.Some? ==> r.value.start <= |header|
  {
    match FindFrom(header, NameKey, 0)
    case None => None
    case Some(key) =>
      match FindCharFrom(header, ':', key + 6)
      case Some(colon) => FieldBefore(header, key + 6, colon)
      case None =>
        var field := if key + 6 < |header| then header[key + 6..|header| - 1] else [];
        match ReadInt(field)
        case None => None
        case Some(n) => Some(NameField(0, n))
  }

  /** `torrent_filename` as the code is written. */
  function TorrentFilenameAsWritten(header: string): (r: Option<string>)
    ensures r.None? <==> !Contains(header, PiecesKey) || ParseNameFieldAsWritten(header).None?
    ensures r.Some? ==> r.value == NameFrom(header, ParseNameFieldAsWritten(header).value)
  {
    if !Contains(header, PiecesKey) then None
    else
      match ParseNameFieldAsWritten(header)
      case None => None
      case Some(field) => Some(NameFrom(header, field))
  }

  /** Where a `:` follows the key, the code as written and the corrected parse agree. */
  lemma {:induction false} AsWrittenWithColon(header: string)
    requires FindFrom(header, NameKey, 0).Some?
    requires FindCharFrom(header, ':', FindFrom(header, NameKey, 0).value + 6).Some?
    ensures TorrentFilenameAsWritten(header) == TorrentFilename(header)
  {
  }

  /** A header line whose name field has no colon after it; the line ends in a line break. */
  const NoColonHeader: string := "6:pieces4:name3\n"

  /** In `NoColonHeader`, the key stands at 8 and no `:` follows it. */
  lemma NoColonHeaderLayout()
    ensures Contains(NoColonHeader, PiecesKey)
    ensures FindFrom(NoColonHeader, NameKey, 0) == Some(8)
    ensures FindCharFrom(NoColonHeader, ':', 14).None?
    ensures NoColonHeader[14..|NoColonHeader| - 1] == "3"
  {
    var header := NoColonHeader;
    assert OccursAt(header, PiecesKey, 0);
    assert OccursAt(header, NameKey, 8);
    forall i | 0 <= i < 8 ensures !OccursAt(header, NameKey, i) {
      assert header[i] != '4';
      assert header[i..i + 6][0] == header[i];
    }
    FindFirst(header, NameKey, 0, 8);
  }

  /**
   * Without a `:` after the key, the code as written returns the start of the
   * header; the corrected parse finds no name.
   */
  lemma ColonMissingReadsHeaderStart()
    ensures TorrentFilenameAsWritten(NoColonHeader) == Some("6:p")
    ensures TorrentFilename(NoColonHeader) == None
  {
    NoColonHeaderLayout();
    ReadIntDigits("3");
    assert DecimalValue("3") == 3;
    assert NameFrom(NoColonHeader, NameField(0, 3)) == "6:p";
  }

  /** The field parse of a header whose first `4:name` is at `key`, followed by a numeral and a colon. */
  lemma {:induction false} ParseNameFieldAt(header: string, key: nat, digits: string)
    requires FindFrom(header, NameKey, 0) == Some(key)
    requires digits != [] && AllDigits(digits)
    requires OccursAt(header, digits + ":", key + 6)
    ensures ParseNameField(header) == Some(NameField(key + 6 + |digits| + 1, DecimalValue(digits)))
  {
    LengthFieldDigits(header, key, digits);
  }

  /** A numeral followed by a colon, right after the key, is read as the length field. */
  lemma {:induction false} LengthFieldDigits(header: string, key: nat, digits: string)
    requires digits != [] && AllDigits(digits)
    requires OccursAt(header, digits + ":", key + 6)
    ensures LengthFieldAfter(header, key) == Some(NameField(key + 6 + |digits| + 1, DecimalValue(digits)))
  {
    var start := key + 6;
    FindColonAfterDigits(header, start, digits);
    FieldDigits(header, start, digits);
  }

  /** The numeral before the colon is the field. */
  lemma {:induction false} FieldDigits(header: string, start: nat, digits: string)
    requires digits != [] && AllDigits(digits)
    requires OccursAt(header, digits + ":", start)
    ensures FieldBefore(header, start, start + |digits|) == Some(NameField(start + |digits| + 1, DecimalValue(digits)))
  {
    forall k | 0 <= k < |digits| ensures header[start + k] == digits[k] {
      assert header[start + k] == header[start..start + |digits| + 1][k] == (digits + ":")[k];
    }
    assert header[start..start + |digits|] == digits;
    ReadIntDigits(digits);
  }

  /** The first `:` after a numeral that a colon follows is that colon. */
  lemma {:induction false} FindColonAfterDigits(header: string, start: nat, digits: string)
    requires AllDigits(digits)
    requires OccursAt(header, digits + ":", start)
    ensures FindCharFrom(header, ':', start) == Some(start + |digits|)
  {
    var colon := start + |digits|;
    assert header[start..colon + 1] == digits + ":";
    forall i | start <= i < colon ensures header[i] != ':' {
      AllDigitsAt(digits, i - start);
      assert header[i] == header[start..colon + 1][i - start];
    }
    assert header[colon] == (digits + ":")[|digits|];
  }

  /**
   * A name written as a bencoded string after the first `4:name` of a header
   * that has `6:pieces` is read back exactly.
   */
  lemma {:induction false} TorrentFilenameRoundTrip(header: string, pre: string, name: string, post: string)
    requires header == pre + NameKey + Decimal(|name|) + ":" + name + post
    requires Contains(header, PiecesKey)
    requires !Contains(pre, NameKey)
    ensures TorrentFilename(header) == Some(name)
  {
    var digits := Decimal(|name|);
    HeaderLayout(header, pre, digits, name, post);
    DecimalRoundTrip(|name|);
    FirstKey(header, pre);
    NameAfterKey(header, |pre|, digits, name);
  }

  /** The round trip, once the first `4:name` is known to stand at `key`. */
  lemma {:induction false} NameAfterKey(header: string, key: nat, digits: string, name: string)
    requires Contains(header, PiecesKey) && FindFrom(header, NameKey, 0) == Some(key)
    requires digits != [] && AllDigits(digits) && DecimalValue(digits) == |name|
    requires OccursAt(header, digits + ":", key + 6)
    requires OccursAt(header, name, key + 6 + |digits| + 1)
    ensures TorrentFilename(header) == Some(name)
  {
    ParseNameFieldAt(header, key, digits);
    TorrentFilenameAt(header, key + 6 + |digits| + 1, name);
  }

  /**
   * The first `4:name` of a header that starts with `pre 4:name` stands right
   * after `pre` when `pre` holds none: no occurrence can straddle the end of
   * `pre`, because `4` appears in the key only at its start.
   */
  lemma {:induction false} FirstKey(header: string, pre: string)
    requires pre + NameKey <= header && !Contains(pre, NameKey)
    ensures FindFrom(header, NameKey, 0) == Some(|pre|)
  {
    OccursAfterPrefix(header, pre, NameKey);
    forall i | 0 <= i < |pre| ensures !OccursAt(header, NameKey, i) {
      if i + 6 <= |pre| {
        assert !OccursAt(pre, NameKey, i);
        assert header[i..i + 6] == pre[i..i + 6];
      } else if i + 6 <= |header| {
        var d := |pre| - i;
        assert header[|pre|] == '4';
        assert header[i..i + 6][d] == header[|pre|];
        assert NameKey[d] != '4';
      }
    }
    FindFirst(header, NameKey, 0, |pre|);
  }

  /** A name as long as the field declares, where the field says it starts, is the file name. */
  lemma {:induction false} TorrentFilenameAt(header: string, start: nat, name: string)
    requires OccursAt(header, name, start)
    ensures Contains(header, PiecesKey) && ParseNameField(header) == Some(NameField(start, |name|))
        ==> TorrentFilename(header) == Some(name)
  {
    if Contains(header, PiecesKey) && ParseNameField(header) == Some(NameField(start, |name|)) {
      assert NameFrom(header, NameField(start, |name|)) == name;
    }
  }

  /** Where the parts of a header built as `pre 4:name digits : name post` stand. */
  lemma {:induction false} HeaderLayout(header: string, pre: string, digits: string, name: string, post: string)
    requires header == pre + NameKey + digits + ":" + name + post
    ensures pre + NameKey <= header
    ensures OccursAt(header, digits + ":", |pre| + 6)
    ensures OccursAt(header, name, |pre| + 6 + |digits| + 1)
  {
    assert pre + NameKey + (digits + ":") == pre + NameKey + digits + ":";
    assert header == (pre + NameKey) + (digits + ":" + name + post);
    OccursAfterPrefix(header, pre + NameKey, digits + ":");
    OccursAfterPrefix(header, pre + NameKey + digits + ":", name);
  }
}
