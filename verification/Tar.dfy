/** The ustar header codec of the storage backup helper: splitting a key over the name and
    prefix fields, writing a 512-byte header block in place, and the strict header parser. */
module Tar {
  import opened Wrappers
  import opened Text

  type Byte = b: int | 0 <= b < 256

  const BLOCK_BYTES := 512
  const MAX_SAFE_INTEGER := 9_007_199_254_740_991

  datatype Error =
    | UnsafeKey | KeyTooLong | ObjectTooLarge
    | InvalidText | InvalidNumber | UnsafeNumber | ChecksumMismatch | InvalidType | EmptyPath

  datatype PathFields = PathFields(name: string, prefix: string)

  // ---------- keys and path fields ----------

  predicate Printable(s: string) {
    forall k | 0 <= k < |s| :: ' ' <= s[k] <= '~'
  }

  predicate SafeKey(key: string) {
    key != "" && Printable(key) && key[0] != '/' && '\\' !in key
  }

  /** The slash at `i` leaves a prefix and a name that both fit their fields. */
  predicate SplitsAt(key: string, i: int) {
    0 < i < |key| && key[i] == '/' && i <= 155 && |key| - i - 1 <= 100
  }

  ghost predicate Encodable(key: string) {
    SafeKey(key) && (|key| <= 100 || exists i :: SplitsAt(key, i))
  }

  /** The fields a key is stored in: whole when short, else cut at the last slash that fits. */
  ghost predicate IsPathFields(key: string, f: PathFields) {
    if |key| <= 100 then f == PathFields(key, "")
    else exists i ::
        && SplitsAt(key, i)
        && f == PathFields(key[i + 1..], key[..i])
        && forall j | SplitsAt(key, j) :: j <= i
  }

  /** `key.lastIndexOf('/', from)`. */
  method LastSlash(key: string, from: int) returns (at: int)
    requires -1 <= from < |key|
    ensures -1 <= at <= from
    ensures at >= 0 ==> key[at] == '/'
    ensures forall k | at < k <= from :: key[k] != '/'
  {
    at := from;
    while at >= 0 && key[at] != '/'
      invariant -1 <= at <= from
      invariant forall k | at < k <= from :: key[k] != '/'
    {
      at := at - 1;
    }
  }

  method TarPathFields(key: string) returns (r: Result<PathFields, Error>)
    ensures r.Ok? <==> Encodable(key)
    ensures r.Ok? ==> IsPathFields(key, r.value)
    ensures r.Err? ==> r.error == if SafeKey(key) then KeyTooLong else UnsafeKey
  {
    if !SafeKey(key) {
      return Err(UnsafeKey);
    }
    if |key| <= 100 {
      return Ok(PathFields(key, ""));
    }
    var separator := LastSlash(key, |key| - 1);
    while separator > 0
      invariant -1 <= separator < |key|
      invariant separator >= 0 ==> key[separator] == '/'
      invariant forall j | separator < j < |key| :: !SplitsAt(key, j)
      decreases separator
    {
      var prefix, name := key[..separator], key[separator + 1..];
      if |prefix| <= 155 && |name| <= 100 {
        assert SplitsAt(key, separator);
        return Ok(PathFields(name, prefix));
      }
      assert !SplitsAt(key, separator);
      separator := LastSlash(key, separator - 1);
    }
    return Err(KeyTooLong);
  }

  // ---------- the header block ----------

  /** Field `at`, `width` bytes wide, holds the text followed by NUL bytes. */
  ghost predicate TextField(h: seq<Byte>, at: nat, width: nat, text: string) {
    && at + width <= |h| && |text| <= width
    && forall k | at <= k < at + width :: h[k] == (if k < at + |text| then text[k - at] as int else 0)
  }

  function OctalText(value: nat, width: nat): string {
    PadStart(Digits(value, 8), width)
  }

  function Sum(s: seq<Byte>): (n: nat)
    ensures n <= 255 * |s|
  {
    if s == [] then 0 else Sum(s[..|s| - 1]) + s[|s| - 1]
  }

  /** The block as its checksum sees it: the checksum field read as eight spaces. */
  function Blanked(h: seq<Byte>): (b: seq<Byte>)
    requires |h| == BLOCK_BYTES
    ensures |b| == BLOCK_BYTES
    ensures forall k | 0 <= k < BLOCK_BYTES :: b[k] == if 148 <= k < 156 then 0x20 else h[k]
  {
    seq(BLOCK_BYTES, k requires 0 <= k < BLOCK_BYTES => if 148 <= k < 156 then 0x20 else h[k])
  }

  /** The ustar header table for a regular file, with the checksum field still blank. */
  ghost predicate IsUnsealed(h: seq<Byte>, f: PathFields, size: nat) {
    && |h| == BLOCK_BYTES
    && TextField(h, 0, 100, f.name)
    && TextField(h, 100, 8, OctalText(0x180, 7))  // mode 0600
    && TextField(h, 108, 8, OctalText(0, 7))      // uid
    && TextField(h, 116, 8, OctalText(0, 7))      // gid
    && TextField(h, 124, 12, OctalText(size, 11))
    && TextField(h, 136, 12, OctalText(0, 11))    // mtime
    && TextField(h, 148, 8, "        ")           // checksum
    && TextField(h, 156, 1, "0")                  // typeflag
    && TextField(h, 157, 100, "")                 // linkname
    && TextField(h, 257, 6, "ustar")
    && TextField(h, 263, 2, "00")
    && TextField(h, 265, 80, "")                  // uname, gname, device numbers
    && TextField(h, 345, 155, f.prefix)
    && TextField(h, 500, 12, "")
  }

  ghost predicate IsHeader(h: seq<Byte>, f: PathFields, size: nat) {
    && |h| == BLOCK_BYTES
    && IsUnsealed(Blanked(h), f, size)
    && TextField(h, 148, 7, OctalText(Sum(Blanked(h)), 6))
    && h[155] == 0x20
  }

  ghost predicate IsEntryHeader(h: seq<Byte>, key: string, size: nat) {
    size < Pow(8, 11) && Encodable(key) && exists f :: IsPathFields(key, f) && IsHeader(h, f, size)
  }

  lemma OctalLimits()
    ensures Pow(8, 6) == 262_144 && Pow(8, 7) == 2_097_152 && Pow(8, 11) == 8_589_934_592
  {
    assert Pow(8, 3) == 512;
    assert Pow(8, 6) == 262_144;
    assert Pow(8, 9) == 134_217_728;
  }

  lemma PathFieldsFit(key: string, f: PathFields)
    requires SafeKey(key) && IsPathFields(key, f)
    ensures Printable(f.name) && Printable(f.prefix) && |f.name| <= 100 && |f.prefix| <= 155
    ensures key == if f.prefix == "" then f.name else f.prefix + "/" + f.name
    ensures f.name == "" <==> |key| > 100 && key[|key| - 1] == '/' && |key| <= 156
  {
    if |key| > 100 {
      var i :| SplitsAt(key, i) && f == PathFields(key[i + 1..], key[..i])
        && forall j | SplitsAt(key, j) :: j <= i;
      CutAtSlash(key, i);
      assert SplitsAt(key, |key| - 1) <==> key[|key| - 1] == '/' && |key| <= 156;
      hide SplitsAt;
    }
  }

  lemma CutAtSlash(key: string, i: nat)
    requires Printable(key) && SplitsAt(key, i)
    ensures key == key[..i] + "/" + key[i + 1..]
    ensures Printable(key[..i]) && Printable(key[i + 1..])
  {
  }

  /** `s` with as much of the text as fits the field written over it. */
  function Overlay(s: seq<Byte>, text: string, at: nat, width: nat): (t: seq<Byte>)
    requires at + width <= |s| && forall k | 0 <= k < |text| :: text[k] as int < 128
    ensures |t| == |s|
    ensures forall k | at <= k < at + width && k < at + |text| :: t[k] == text[k - at] as int
    ensures forall k | 0 <= k < |s| && !(at <= k < at + width && k < at + |text|) :: t[k] == s[k]
  {
    seq(|s|, k requires 0 <= k < |s| =>
      if at <= k < at + width && k < at + |text| then text[k - at] as int else s[k])
  }

  /** `target.write(text, offset, width, 'ascii')` for seven-bit text. */
  method WriteText(target: array<Byte>, text: string, offset: nat, width: nat)
    requires offset + width <= target.Length
    requires forall k | 0 <= k < |text| :: text[k] as int < 128
    modifies target
    ensures target[..] == Overlay(old(target[..]), text, offset, width)
  {
    var n := if |text| < width then |text| else width;
    for k := 0 to n
      invariant forall j | 0 <= j < target.Length && !(offset <= j < offset + k) :: target[j] == old(target[j])
      invariant forall j | offset <= j < offset + k :: target[j] == text[j - offset] as int
    {
      target[offset + k] := text[k] as int;
    }
  }

  /** Writes the value as `length - 1` octal digits and a NUL, or refuses a value that needs more. */
  method WriteOctal(target: array<Byte>, offset: nat, length: nat, value: nat) returns (r: Result<(), Error>)
    requires length >= 2 && offset + length <= target.Length
    modifies target
    ensures r == if value < Pow(8, length - 1) then Ok(()) else Err(ObjectTooLarge)
    ensures r.Err? ==> target[..] == old(target[..])
    ensures r.Ok? ==> TextField(target[..], offset, length, OctalText(value, length - 1))
    ensures forall k | 0 <= k < target.Length && !(offset <= k < offset + length) :: target[k] == old(target[k])
  {
    DigitsLength(value, 8, length - 1);
    var encoded := PadStart(Digits(value, 8), length - 1);
    if |encoded| >= length {
      return Err(ObjectTooLarge);
    }
    OctalTextDigits(value, length - 1);
    WriteText(target, encoded, offset, length - 1);
    target[offset + length - 1] := 0;
    return Ok(());
  }

  lemma OctalTextDigits(value: nat, width: nat)
    ensures AllDigits(OctalText(value, width), 8) && Value(OctalText(value, width), 8) == value
    ensures forall k | 0 <= k < |OctalText(value, width)| :: '0' <= OctalText(value, width)[k] <= '7'
    ensures value < Pow(8, width) && width >= 1 ==> |OctalText(value, width)| == width
  {
    var s := Digits(value, 8);
    var zeros := if |s| < width then Repeat('0', width - |s|) else "";
    assert OctalText(value, width) == zeros + s;
    ValuePadded(zeros, s, 8);
    ValueDigits(value, 8);
    forall k | 0 <= k < |OctalText(value, width)|
      ensures '0' <= OctalText(value, width)[k] <= '7'
    {
      assert IsDigit(OctalText(value, width)[k], 8);
    }
    if width >= 1 {
      DigitsLength(value, 8, width);
    }
  }

  ghost predicate HasNumbers(h: seq<Byte>, bytes: nat) {
    && TextField(h, 100, 8, OctalText(0x180, 7))
    && TextField(h, 108, 8, OctalText(0, 7))
    && TextField(h, 116, 8, OctalText(0, 7))
    && TextField(h, 124, 12, OctalText(bytes, 11))
    && TextField(h, 136, 12, OctalText(0, 11))
  }

  /** The numeric fields, in the order the source writes them. */
  method FillNumbers(header: array<Byte>, bytes: nat) returns (r: Result<(), Error>)
    requires header.Length == BLOCK_BYTES
    modifies header
    ensures r == if bytes < Pow(8, 11) then Ok(()) else Err(ObjectTooLarge)
    ensures r.Ok? ==> HasNumbers(header[..], bytes)
    ensures forall k | 0 <= k < BLOCK_BYTES && !(100 <= k < 148) :: header[k] == old(header[k])
  {
    OctalLimits();
    var mode := WriteOctal(header, 100, 8, 0x180);
    var uid := WriteOctal(header, 108, 8, 0);
    var gid := WriteOctal(header, 116, 8, 0);
    var size := WriteOctal(header, 124, 12, bytes);
    if size.Err? {
      return size;
    }
    var mtime := WriteOctal(header, 136, 12, 0);
    return Ok(());
  }

  /** Every field but the checksum. */
  method FillHeader(header: array<Byte>, fields: PathFields, bytes: nat) returns (r: Result<(), Error>)
    requires header.Length == BLOCK_BYTES && forall k | 0 <= k < BLOCK_BYTES :: header[k] == 0
    requires Printable(fields.name) && Printable(fields.prefix)
    requires |fields.name| <= 100 && |fields.prefix| <= 155
    modifies header
    ensures r == if bytes < Pow(8, 11) then Ok(()) else Err(ObjectTooLarge)
    ensures r.Ok? ==> IsUnsealed(header[..], fields, bytes)
  {
    hide TextField, OctalText, IsUnsealed, Pow;
    ghost var zero := header[..];
    WriteText(header, fields.name, 0, 100);
    ghost var named := header[..];
    var numbers := FillNumbers(header, bytes);
    if numbers.Err? {
      return numbers;
    }
    ghost var numbered := header[..];
    WriteMarks(header);
    ghost var marked := header[..];
    WriteText(header, fields.prefix, 345, 155);
    HeaderFilled(zero, named, numbered, marked, header[..], fields, bytes);
    return Ok(());
  }

  lemma OverlayField(h: seq<Byte>, text: string, at: nat, width: nat)
    requires at + width <= |h| && |text| <= width && Printable(text)
    requires forall k | at <= k < at + width :: h[k] == 0
    ensures TextField(Overlay(h, text, at, width), at, width, text)
  {
  }

  lemma KeptField(h: seq<Byte>, h': seq<Byte>, at: nat, width: nat, text: string)
    requires TextField(h, at, width, text) && |h'| == |h|
    requires forall k | at <= k < at + width :: h'[k] == h[k]
    ensures TextField(h', at, width, text)
  {
  }

  lemma ZeroField(h: seq<Byte>, at: nat, width: nat)
    requires at + width <= |h| && forall k | at <= k < at + width :: h[k] == 0
    ensures TextField(h, at, width, "")
  {
  }

  /** What the four rounds of writing leave in a block of zeros. */
  lemma HeaderFilled(zero: seq<Byte>, named: seq<Byte>, numbered: seq<Byte>, marked: seq<Byte>, h: seq<Byte>,
                     fields: PathFields, bytes: nat)
    requires |zero| == |named| == |numbered| == |marked| == BLOCK_BYTES
    requires forall k | 0 <= k < BLOCK_BYTES :: zero[k] == 0
    requires Printable(fields.name) && Printable(fields.prefix) && |fields.name| <= 100 && |fields.prefix| <= 155
    requires named == Overlay(zero, fields.name, 0, 100)
    requires HasNumbers(numbered, bytes)
    requires forall k | 0 <= k < BLOCK_BYTES && !(100 <= k < 148) :: numbered[k] == named[k]
    requires TextField(marked, 148, 8, "        ") && TextField(marked, 156, 1, "0")
    requires TextField(marked, 257, 6, "ustar\0") && TextField(marked, 263, 2, "00")
    requires forall k | 0 <= k < BLOCK_BYTES && !(148 <= k < 157) && !(257 <= k < 265) :: marked[k] == numbered[k]
    requires h == Overlay(marked, fields.prefix, 345, 155)
    ensures IsUnsealed(h, fields, bytes)
  {
    UstarMark(marked);
    hide TextField, OctalText;
    OverlayField(zero, fields.name, 0, 100);
    OverlayField(marked, fields.prefix, 345, 155);
    KeptField(named, h, 0, 100, fields.name);
    KeptField(numbered, h, 100, 8, OctalText(0x180, 7));
    KeptField(numbered, h, 108, 8, OctalText(0, 7));
    KeptField(numbered, h, 116, 8, OctalText(0, 7));
    KeptField(numbered, h, 124, 12, OctalText(bytes, 11));
    KeptField(numbered, h, 136, 12, OctalText(0, 11));
    KeptField(marked, h, 148, 8, "        ");
    KeptField(marked, h, 156, 1, "0");
    KeptField(marked, h, 257, 6, "ustar");
    KeptField(marked, h, 263, 2, "00");
    ZeroField(h, 157, 100);
    ZeroField(h, 265, 80);
    ZeroField(h, 500, 12);
  }

  /** The magic is five letters and a NUL. */
  lemma UstarMark(h: seq<Byte>)
    requires TextField(h, 257, 6, "ustar\0")
    ensures TextField(h, 257, 6, "ustar")
  {
    var magic := "ustar\0";
    assert forall k | 0 <= k < 5 :: magic[k] == "ustar"[k];
  }

  /** The blank checksum and the marks of the format. */
  method WriteMarks(header: array<Byte>)
    requires header.Length == BLOCK_BYTES
    modifies header
    ensures TextField(header[..], 148, 8, "        ") && TextField(header[..], 156, 1, "0")
    ensures TextField(header[..], 257, 6, "ustar\0") && TextField(header[..], 263, 2, "00")
    ensures forall k | 0 <= k < BLOCK_BYTES && !(148 <= k < 157) && !(257 <= k < 265) :: header[k] == old(header[k])
  {
    WriteText(header, "        ", 148, 8);
    header[156] := 0x30;
    WriteText(header, "ustar\0", 257, 6);
    WriteText(header, "00", 263, 2);
  }

  method TarHeader(key: string, bytes: nat) returns (r: Result<array<Byte>, Error>)
    ensures r.Ok? <==> Encodable(key) && bytes < Pow(8, 11)
    ensures r.Ok? ==> fresh(r.value) && r.value.Length == BLOCK_BYTES && IsEntryHeader(r.value[..], key, bytes)
    ensures r.Err? ==> r.error == HeaderError(key)
  {
    var header := new Byte[BLOCK_BYTES](_ => 0);
    var path := TarPathFields(key);
    if path.Err? {
      return Err(path.error);
    }
    var fields := path.value;
    PathFieldsFit(key, fields);
    hide IsPathFields, Encodable, Sum, OctalText;
    var filled := FillHeader(header, fields, bytes);
    if filled.Err? {
      return Err(filled.error);
    }
    SealHeader(header);
    return Ok(header);
  }

  /** Writes the checksum over its blank field. */
  method SealHeader(header: array<Byte>)
    requires header.Length == BLOCK_BYTES && TextField(header[..], 148, 8, "        ")
    modifies header
    ensures Blanked(header[..]) == old(header[..])
    ensures TextField(header[..], 148, 7, OctalText(Sum(old(header[..])), 6)) && header[155] == 0x20
  {
    ghost var unsealed := header[..];
    ChecksumFits(unsealed);
    var checksum := OctalText(Sum(header[..]), 6);
    hide Sum, OctalText;
    WriteText(header, checksum, 148, 6);
    header[154] := 0;
    header[155] := 0x20;
    assert forall k | 0 <= k < BLOCK_BYTES && !(148 <= k < 156) :: header[..][k] == unsealed[k];
  }

  ghost function HeaderError(key: string): Error {
    if !SafeKey(key) then UnsafeKey else if !Encodable(key) then KeyTooLong else ObjectTooLarge
  }

  /** The checksum of any block fits its six octal digits. */
  lemma ChecksumFits(h: seq<Byte>)
    requires |h| == BLOCK_BYTES
    ensures Sum(h) < Pow(8, 6)
    ensures |OctalText(Sum(h), 6)| == 6
    ensures forall k | 0 <= k < 6 :: '0' <= OctalText(Sum(h), 6)[k] <= '7'
  {
    OctalLimits();
    OctalTextDigits(Sum(h), 6);
  }

  // ---------- the parser ----------

  datatype Header = Header(key: string, bytes: nat)

  /** Decoding a buffer as 'ascii' drops the top bit of every byte. */
  function Ascii(field: seq<Byte>): (s: string)
    ensures |s| == |field|
    ensures forall k | 0 <= k < |field| :: s[k] == (field[k] % 128) as char
  {
    seq(|field|, k requires 0 <= k < |field| => (field[k] % 128) as char)
  }

  function IndexOfNul(field: seq<Byte>): (z: nat)
    ensures z <= |field|
    ensures forall k | 0 <= k < z :: field[k] != 0
    ensures z < |field| ==> field[z] == 0
  {
    if field == [] || field[0] == 0 then 0 else 1 + IndexOfNul(field[1..])
  }

  /** Drops trailing NULs and spaces. */
  function StripEnd(s: string): string {
    if s != "" && (s[|s| - 1] == ' ' || s[|s| - 1] == '\0') then StripEnd(s[..|s| - 1]) else s
  }

  function ParseTarText(block: seq<Byte>, start: nat, length: nat): Result<string, Error>
    requires start + length <= |block|
  {
    var field := block[start..start + length];
    var content := field[..IndexOfNul(field)];
    if exists k | 0 <= k < |content| :: content[k] < 0x20 || content[k] > 0x7e then Err(InvalidText)
    else Ok(Ascii(content))
  }

  function ParseTarOctal(block: seq<Byte>, start: nat, length: nat): Result<nat, Error>
    requires start + length <= |block|
  {
    var value := StripEnd(Ascii(block[start..start + length]));
    if value == "" || !AllDigits(value, 8) then Err(InvalidNumber)
    else
      var parsed := Value(value, 8);
      if parsed > MAX_SAFE_INTEGER then Err(UnsafeNumber) else Ok(parsed)
  }

  function ParseTarHeader(block: seq<Byte>): Result<Header, Error>
    requires |block| == BLOCK_BYTES
  {
    var expected := ParseTarOctal(block, 148, 8);
    if expected.Err? then Err(expected.error)
    else if Sum(Blanked(block)) != expected.value then Err(ChecksumMismatch)
    else if block[257..263] != [0x75, 0x73, 0x74, 0x61, 0x72, 0] then Err(InvalidType)
    else if Ascii(block[263..265]) != "00" then Err(InvalidType)
    else if block[156] != 0 && block[156] != 0x30 then Err(InvalidType)
    else
      var name := ParseTarText(block, 0, 100);
      if name.Err? then Err(name.error)
      else
        var prefix := ParseTarText(block, 345, 155);
        if prefix.Err? then Err(prefix.error)
        else if name.value == "" then Err(EmptyPath)
        else
          var bytes := ParseTarOctal(block, 124, 12);
          if bytes.Err? then Err(bytes.error)
          else Ok(Header(if prefix.value == "" then name.value else prefix.value + "/" + name.value, bytes.value))
  }

  lemma TextFieldParses(h: seq<Byte>, at: nat, width: nat, text: string)
    requires TextField(h, at, width, text) && Printable(text)
    ensures ParseTarText(h, at, width) == Ok(text)
  {
    var field := h[at..at + width];
    assert forall k | 0 <= k < width :: field[k] == h[at + k];
    assert forall k | 0 <= k < |text| :: field[k] == text[k] as int;
    assert |text| < width ==> field[|text|] == 0;
    assert IndexOfNul(field) == |text|;
    assert Ascii(field[..|text|]) == text;
  }

  /** Seven-bit text written to a field reads back as itself, padding included. */
  lemma FieldReads(h: seq<Byte>, at: nat, width: nat, text: string)
    requires TextField(h, at, |text|, text) && |text| <= width && at + width <= |h|
    requires forall k | 0 <= k < |text| :: text[k] as int < 128
    requires forall k | at + |text| <= k < at + width :: h[k] == 0 || h[k] == 0x20
    ensures var s := Ascii(h[at..at + width]);
      s[..|text|] == text && forall k | |text| <= k < width :: s[k] == ' ' || s[k] == '\0'
  {
    var raw := h[at..at + width];
    forall k | 0 <= k < |text| ensures Ascii(raw)[k] == text[k] {
      assert raw[k] == h[at + k] == text[k] as int;
    }
    forall k | |text| <= k < width ensures Ascii(raw)[k] == ' ' || Ascii(raw)[k] == '\0' {
      assert raw[k] == h[at + k];
    }
  }

  lemma OctalFieldParses(h: seq<Byte>, at: nat, width: nat, text: string)
    requires text != "" && AllDigits(text, 8) && Value(text, 8) <= MAX_SAFE_INTEGER
    requires TextField(h, at, |text|, text) && |text| <= width && at + width <= |h|
    requires forall k | at + |text| <= k < at + width :: h[k] == 0 || h[k] == 0x20
    ensures ParseTarOctal(h, at, width) == Ok(Value(text, 8))
  {
    forall k | 0 <= k < |text| ensures '0' <= text[k] <= '7' {
      assert IsDigit(text[k], 8);
    }
    FieldReads(h, at, width, text);
    StripTail(Ascii(h[at..at + width]), |text|);
  }

  lemma {:induction false} StripTail(s: string, n: nat)
    requires 1 <= n <= |s| && s[n - 1] != ' ' && s[n - 1] != '\0'
    requires forall k | n <= k < |s| :: s[k] == ' ' || s[k] == '\0'
    ensures StripEnd(s) == s[..n]
    decreases |s|
  {
    if n < |s| {
      StripTail(s[..|s| - 1], n);
      assert s[..|s| - 1][..n] == s[..n];
    } else {
      assert s[..n] == s;
    }
  }

  /** Parsing a written header gives back its key and size, unless the split left the name empty. */
  lemma HeaderRoundTrip(h: seq<Byte>, key: string, size: nat)
    requires IsEntryHeader(h, key, size)
    ensures ParseTarHeader(h) == (
              if |key| <= 100 || key[|key| - 1] != '/' || |key| > 156 then Ok(Header(key, size)) else Err(EmptyPath))
  {
    var f :| IsPathFields(key, f) && IsHeader(h, f, size);
    hide IsHeader;
    PathFieldsFit(key, f);
    ChecksumParses(h, f, size);
    SizeParses(h, f, size);
    NamesParse(h, f, size);
    TypeParses(h, f, size);
  }

  lemma NamesParse(h: seq<Byte>, f: PathFields, size: nat)
    requires IsHeader(h, f, size) && Printable(f.name) && Printable(f.prefix)
    ensures ParseTarText(h, 0, 100) == Ok(f.name) && ParseTarText(h, 345, 155) == Ok(f.prefix)
  {
    var b := Blanked(h);
    assert TextField(h, 0, 100, f.name) && TextField(h, 345, 155, f.prefix);
    TextFieldParses(h, 0, 100, f.name);
    TextFieldParses(h, 345, 155, f.prefix);
  }

  lemma TypeParses(h: seq<Byte>, f: PathFields, size: nat)
    requires IsHeader(h, f, size)
    ensures h[257..263] == [0x75, 0x73, 0x74, 0x61, 0x72, 0]
    ensures Ascii(h[263..265]) == "00" && h[156] == 0x30
  {
    var b := Blanked(h);
    assert h[257..263] == b[257..263] == [0x75, 0x73, 0x74, 0x61, 0x72, 0];
    assert h[263..265] == b[263..265] == [0x30, 0x30];
    assert Ascii([0x30, 0x30]) == "00";
    assert h[156] == b[156];
  }

  lemma ChecksumParses(h: seq<Byte>, f: PathFields, size: nat)
    requires IsHeader(h, f, size)
    ensures ParseTarOctal(h, 148, 8) == Ok(Sum(Blanked(h)))
  {
    var b := Blanked(h);
    var text := OctalText(Sum(b), 6);
    ChecksumFits(b);
    OctalTextDigits(Sum(b), 6);
    assert h[154] == 0;
    OctalFieldParses(h, 148, 8, text);
  }

  lemma SizeParses(h: seq<Byte>, f: PathFields, size: nat)
    requires IsHeader(h, f, size) && size < Pow(8, 11)
    ensures ParseTarOctal(h, 124, 12) == Ok(size)
  {
    OctalLimits();
    OctalTextDigits(size, 11);
    var b := Blanked(h);
    assert forall k | 124 <= k < 136 :: h[k] == b[k];
    OctalFieldParses(h, 124, 12, OctalText(size, 11));
  }

  lemma {:induction false} SumUpdate(s: seq<Byte>, i: nat, v: Byte)
    requires i < |s|
    ensures Sum(s[i := v]) == Sum(s) - s[i] + v
  {
    var t, n := s[i := v], |s| - 1;
    if i == n {
      assert t[..n] == s[..n];
    } else {
      SumUpdate(s[..n], i, v);
      assert t[..n] == s[..n][i := v];
    }
  }

  /** Changing any one byte outside the checksum field makes an accepted block unacceptable. */
  lemma CorruptionDetected(h: seq<Byte>, i: nat, v: Byte)
    requires |h| == BLOCK_BYTES && ParseTarHeader(h).Ok?
    requires i < BLOCK_BYTES && !(148 <= i < 156) && v != h[i]
    ensures ParseTarHeader(h[i := v]) == Err(ChecksumMismatch)
  {
    var t := h[i := v];
    assert Blanked(t) == Blanked(h)[i := v];
    SumUpdate(Blanked(h), i, v);
    assert t[148..156] == h[148..156];
  }

  /** A block of zeros never parses as a header. */
  lemma ZeroBlockRejected(h: seq<Byte>)
    requires |h| == BLOCK_BYTES && forall k | 0 <= k < BLOCK_BYTES :: h[k] == 0
    ensures ParseTarHeader(h) == Err(InvalidNumber)
  {
    var s := Ascii(h[148..156]);
    assert forall k | 0 <= k < 8 :: s[k] == '\0';
    StripNuls(s);
  }

  lemma {:induction false} StripNuls(s: string)
    requires forall k | 0 <= k < |s| :: s[k] == '\0'
    ensures StripEnd(s) == ""
  {
    if s == "" {
    } else {
      StripNuls(s[..|s| - 1]);
    }
  }

  /** The field holds the text, then a NUL unless the text fills it; what follows the NUL is free. */
  ghost predicate HoldsText(h: seq<Byte>, at: nat, width: nat, text: string) {
    && at + width <= |h| && |text| <= width
    && (forall k | at <= k < at + |text| :: h[k] == text[k - at] as int)
    && (|text| < width ==> h[at + |text|] == 0)
  }

  lemma ParsedTextHeld(h: seq<Byte>, at: nat, width: nat)
    requires at + width <= |h| && ParseTarText(h, at, width).Ok?
    ensures Printable(ParseTarText(h, at, width).value) && HoldsText(h, at, width, ParseTarText(h, at, width).value)
  {
    var field := h[at..at + width];
    var z := IndexOfNul(field);
    var content := field[..z];
    assert forall k | 0 <= k < z :: content[k] == field[k];
    forall k | 0 <= k < z ensures 0x20 <= content[k] <= 0x7e {
    }
    var text := Ascii(content);
    assert forall k | 0 <= k < z :: text[k] as int == content[k];
    forall k | at <= k < at + z ensures h[k] == text[k - at] as int {
      assert field[k - at] == h[k];
    }
  }

  /** The key is held in the two text fields. */
  ghost predicate HoldsKey(h: seq<Byte>, key: string, name: string, prefix: string) {
    && HoldsText(h, 0, 100, name) && HoldsText(h, 345, 155, prefix)
    && Printable(name) && Printable(prefix)
    && name != "" && key == (if prefix == "" then name else prefix + "/" + name)
  }

  /** What an accepted block really holds: the key in its two text fields, the checksum of its bytes,
      the format's marks, and an octal size. */
  lemma AcceptedHeaderHolds(h: seq<Byte>, key: string, bytes: nat)
    requires |h| == BLOCK_BYTES && ParseTarHeader(h) == Ok(Header(key, bytes))
    ensures exists name, prefix :: HoldsKey(h, key, name, prefix)
    ensures ParseTarOctal(h, 148, 8) == Ok(Sum(Blanked(h))) && ParseTarOctal(h, 124, 12) == Ok(bytes)
    ensures HoldsText(h, 257, 6, "ustar") && h[263] % 128 == h[264] % 128 == 0x30 && (h[156] == 0 || h[156] == 0x30)
    ensures bytes < Pow(8, 12)
  {
    hide HoldsText, ParseTarText, ParseTarOctal, Printable, Blanked, Sum, Pow, Ascii;
    ParsedTextHeld(h, 0, 100);
    ParsedTextHeld(h, 345, 155);
    OctalBound(h, 124, 12);
    MarksHeld(h);
    assert HoldsKey(h, key, ParseTarText(h, 0, 100).value, ParseTarText(h, 345, 155).value);
  }

  lemma MarksHeld(h: seq<Byte>)
    requires |h| == BLOCK_BYTES && ParseTarHeader(h).Ok?
    ensures HoldsText(h, 257, 6, "ustar") && h[263] % 128 == h[264] % 128 == 0x30
  {
    var magic, version := h[257..263], Ascii(h[263..265]);
    assert forall k | 257 <= k < 263 :: magic[k - 257] == h[k];
    assert version[0] == (h[263] % 128) as char && version[1] == (h[264] % 128) as char;
    assert version == ['0', '0'];
  }

  lemma OctalBound(h: seq<Byte>, at: nat, width: nat)
    requires at + width <= |h| && ParseTarOctal(h, at, width).Ok?
    ensures ParseTarOctal(h, at, width).value < Pow(8, width)
  {
    var s := StripEnd(Ascii(h[at..at + width]));
    StripShorter(Ascii(h[at..at + width]));
    ValueBound(s, 8);
    PowMonotone(8, |s|, width);
  }

  lemma {:induction false} StripShorter(s: string)
    ensures |StripEnd(s)| <= |s|
  {
    if s == "" {
    } else {
      StripShorter(s[..|s| - 1]);
    }
  }

  // ---------- exactly which blocks are headers ----------

  /** The field reads, seven bits a byte, as octal digits of the value and then only NULs and spaces. */
  ghost predicate HoldsNumber(h: seq<Byte>, at: nat, width: nat, n: nat) {
    exists text :: IsNumberText(h, at, width, n, text)
  }

  predicate IsNumberText(h: seq<Byte>, at: nat, width: nat, n: nat, text: string) {
    && at + width <= |h| && 1 <= |text| <= width && AllDigits(text, 8) && Value(text, 8) == n
    && (forall k | at <= k < at + |text| :: h[k] % 128 == text[k - at] as int)
    && forall k | at + |text| <= k < at + width :: h[k] % 128 == 0 || h[k] % 128 == 0x20
  }

  lemma {:induction false} StripSplits(s: string)
    ensures StripEnd(s) <= s
    ensures forall k | |StripEnd(s)| <= k < |s| :: s[k] == ' ' || s[k] == '\0'
  {
    if s == "" || (s[|s| - 1] != ' ' && s[|s| - 1] != '\0') {
    } else {
      StripSplits(s[..|s| - 1]);
    }
  }

  lemma DigitIsNoPadding(text: string)
    requires text != "" && AllDigits(text, 8)
    ensures text[|text| - 1] != ' ' && text[|text| - 1] != '\0'
  {
    assert IsDigit(text[|text| - 1], 8);
  }

  lemma FieldChars(h: seq<Byte>, at: nat, width: nat)
    requires at + width <= |h|
    ensures var field := Ascii(h[at..at + width]);
      |field| == width && forall k | at <= k < at + width :: h[k] % 128 == field[k - at] as int
  {
    var raw := h[at..at + width];
    assert forall k | at <= k < at + width :: raw[k - at] == h[k];
  }

  lemma ParsedNumberHeld(h: seq<Byte>, at: nat, width: nat, n: nat)
    requires at + width <= |h| && ParseTarOctal(h, at, width) == Ok(n)
    ensures HoldsNumber(h, at, width, n) && n <= MAX_SAFE_INTEGER
  {
    hide Ascii, StripEnd, Value;
    var field := Ascii(h[at..at + width]);
    FieldChars(h, at, width);
    StripSplits(field);
    var text := StripEnd(field);
    assert forall j | 0 <= j < |text| :: text[j] == field[j];
    assert IsNumberText(h, at, width, n, text);
  }

  lemma HeldNumberParses(h: seq<Byte>, at: nat, width: nat, n: nat, text: string)
    requires IsNumberText(h, at, width, n, text) && n <= MAX_SAFE_INTEGER
    ensures ParseTarOctal(h, at, width) == Ok(n)
  {
    hide Ascii, StripEnd, Value;
    var field := Ascii(h[at..at + width]);
    FieldChars(h, at, width);
    DigitIsNoPadding(text);
    assert forall k | 0 <= k < width :: field[k] as int == h[at + k] % 128;
    assert field[..|text|] == text;
    StripTail(field, |text|);
  }

  /** A number is parsed exactly from a field that holds it, if it is a safe integer. */
  lemma OctalExactly(h: seq<Byte>, at: nat, width: nat, n: nat)
    requires at + width <= |h|
    ensures ParseTarOctal(h, at, width) == Ok(n) <==> HoldsNumber(h, at, width, n) && n <= MAX_SAFE_INTEGER
  {
    hide ParseTarOctal, IsNumberText;
    if ParseTarOctal(h, at, width) == Ok(n) {
      ParsedNumberHeld(h, at, width, n);
    }
    if HoldsNumber(h, at, width, n) && n <= MAX_SAFE_INTEGER {
      var text :| IsNumberText(h, at, width, n, text);
      HeldNumberParses(h, at, width, n, text);
    }
  }

  /** A text is parsed exactly from a field that holds it, if it is printable. */
  lemma TextExactly(h: seq<Byte>, at: nat, width: nat, text: string)
    requires at + width <= |h|
    ensures ParseTarText(h, at, width) == Ok(text) <==> Printable(text) && HoldsText(h, at, width, text)
  {
    if ParseTarText(h, at, width) == Ok(text) {
      ParsedTextHeld(h, at, width);
    }
    if Printable(text) && HoldsText(h, at, width, text) {
      HeldTextParses(h, at, width, text);
    }
  }

  lemma HeldTextParses(h: seq<Byte>, at: nat, width: nat, text: string)
    requires Printable(text) && HoldsText(h, at, width, text)
    ensures ParseTarText(h, at, width) == Ok(text)
  {
    var field := h[at..at + width];
    assert forall k | 0 <= k < |text| :: field[k] == h[at + k] == text[k] as int;
    assert |text| < width ==> field[|text|] == 0;
    assert IndexOfNul(field) == |text|;
    assert Ascii(field[..|text|]) == text;
  }

  ghost predicate HoldsMarks(h: seq<Byte>)
    requires |h| == BLOCK_BYTES
  {
    && HoldsText(h, 257, 6, "ustar") && h[263] % 128 == h[264] % 128 == 0x30
    && (h[156] == 0 || h[156] == 0x30)
  }

  /** A block is accepted as the header of a key and size exactly when it holds the true checksum, the marks
      of the format, the key in its two text fields, and the size. */
  lemma HeaderExactly(h: seq<Byte>, key: string, bytes: nat)
    requires |h| == BLOCK_BYTES
    ensures ParseTarHeader(h) == Ok(Header(key, bytes)) <==>
      && HoldsNumber(h, 148, 8, Sum(Blanked(h))) && HoldsMarks(h)
      && (exists name, prefix :: HoldsKey(h, key, name, prefix))
      && HoldsNumber(h, 124, 12, bytes) && bytes <= MAX_SAFE_INTEGER
  {
    hide HoldsNumber, HoldsText, Ascii, ParseTarText, ParseTarOctal, Printable, Blanked, Sum;
    SumIsSafe(Blanked(h));
    OctalExactly(h, 148, 8, Sum(Blanked(h)));
    OctalExactly(h, 124, 12, bytes);
    if ParseTarHeader(h) == Ok(Header(key, bytes)) {
      AcceptedHeaderHolds(h, key, bytes);
    }
    if HoldsMarks(h) && exists name, prefix :: HoldsKey(h, key, name, prefix) {
      var name, prefix :| HoldsKey(h, key, name, prefix);
      MarksParse(h);
      TextExactly(h, 0, 100, name);
      TextExactly(h, 345, 155, prefix);
    }
  }

  lemma SumIsSafe(h: seq<Byte>)
    requires |h| == BLOCK_BYTES
    ensures Sum(h) <= MAX_SAFE_INTEGER
  {
  }

  lemma MarksParse(h: seq<Byte>)
    requires |h| == BLOCK_BYTES && HoldsMarks(h)
    ensures h[257..263] == [0x75, 0x73, 0x74, 0x61, 0x72, 0] && Ascii(h[263..265]) == "00"
  {
    var magic := "ustar";
    assert forall k | 257 <= k < 262 :: h[k] == magic[k - 257] as int;
    assert Ascii(h[263..265]) == ['0', '0'];
  }
}
