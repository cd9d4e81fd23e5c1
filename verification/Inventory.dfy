/** The canonical parser of the storage reference inventory of a deployment checkpoint. */
module Inventory {
  import opened Wrappers
  import opened Text
  import opened StorageKeys
  import Tar

  const HEADER := "storage_class" + ",reference_kind" + ",storage_key" + ",checksum_sha256" + ",byte_size"

  datatype StorageReference = StorageReference(
    storageClass: PathClass, referenceKind: string, storageKey: string, checksumSha256: string, byteSize: nat)

  datatype InventoryError =
    | CarriageReturn | MissingNewline | InvalidHeader | InvalidRow | NoncanonicalRow | NoncanonicalOrder

  function ClassName(c: PathClass): string {
    match c
    case Staging => "staging"
    case Publication => "publication"
    case Covers => "covers"
    case Health => "health"
    case Scratch => "scratch"
  }

  function ReferenceClass(kind: string): Option<ArchiveClass> {
    if kind == "title_cover" then Some(Covers)
    else if kind == "revision_staging" then Some(Staging)
    else if kind == "revision_original" || kind == "prose_image" || kind == "comic_page"
      || kind == "revision_cover_suggestion" then Some(Publication)
    else None
  }

  // ---------- what an inventory is ----------

  ghost predicate ValidReference(ref: StorageReference) {
    && ReferenceClass(ref.referenceKind) == Some(ref.storageClass)
    && ClassifyLegacyStoragePath(ref.storageKey) == Some(ref.storageClass)
    && IsDigest(ref.checksumSha256)
    && 1 <= ref.byteSize <= Tar.MAX_SAFE_INTEGER
  }

  function Fields(ref: StorageReference): seq<string> {
    [ClassName(ref.storageClass), ref.referenceKind, ref.storageKey, ref.checksumSha256, Digits(ref.byteSize, 10)]
  }

  function Row(ref: StorageReference): string {
    Join(Fields(ref), ',')
  }

  function Rows(refs: seq<StorageReference>): (rows: seq<string>)
    ensures |rows| == |refs| && forall i | 0 <= i < |refs| :: rows[i] == Row(refs[i])
  {
    seq(|refs|, i requires 0 <= i < |refs| => Row(refs[i]))
  }

  /** Header, then one row per reference, each ending in a newline. */
  function Render(refs: seq<StorageReference>): string {
    Join([HEADER] + Rows(refs) + [""], '\n')
  }

  ghost predicate ValidInventory(refs: seq<StorageReference>) {
    && (forall i | 0 <= i < |refs| :: ValidReference(refs[i]))
    && (forall i, j | 0 <= i < j < |refs| :: refs[i].storageKey != refs[j].storageKey)
    && Ascending(Rows(refs))
  }

  // ---------- rows ----------

  predicate ContainsControlCharacter(value: string) {
    exists c | c in value :: c < ' ' || c as int == 0x7f
  }

  lemma DecimalIsPlain(n: nat)
    ensures ',' !in Digits(n, 10) && '\n' !in Digits(n, 10) && '\r' !in Digits(n, 10)
  {
    assert !IsDigit(',', 10) && !IsDigit('\n', 10) && !IsDigit('\r', 10);
  }

  lemma DigestIsPlain(s: string)
    requires IsDigest(s)
    ensures ',' !in s && '\n' !in s && '\r' !in s
  {
  }

  /** Whatever the classifier admits passes every other test the parser makes on a key. */
  lemma LegalKeyIsPlain(storageClass: ArchiveClass, key: string)
    requires ClassifyLegacyStoragePath(key) == Some(storageClass)
    ensures key != "" && key[0] != '/' && '\\' !in key && !ContainsControlCharacter(key)
    ensures ',' !in key && '\n' !in key && '\r' !in key
    ensures forall segment | segment in Split(key, '/') :: segment != "" && segment != "." && segment != ".."
  {
    var p := Split(key, '/');
    LegalSegments(storageClass, p);
    SafeJoin(p);
    JoinSplit(key, '/');
    hide ClassifyLegacyStoragePath, Split, Join;
    SafeKeyIsPlain(key);
    hide Tar.SafeKey;
  }

  lemma SafeKeyIsPlain(key: string)
    requires Tar.SafeKey(key)
    ensures key != "" && key[0] != '/' && '\\' !in key && !ContainsControlCharacter(key)
    ensures '\n' !in key && '\r' !in key
  {
    assert forall c | c in key :: ' ' <= c <= '~';
  }

  lemma FieldsArePlain(ref: StorageReference)
    requires ValidReference(ref)
    ensures forall f | f in Fields(ref) :: ',' !in f && '\n' !in f && '\r' !in f
  {
    LegalKeyIsPlain(ref.storageClass, ref.storageKey);
    DigestIsPlain(ref.checksumSha256);
    DecimalIsPlain(ref.byteSize);
    KindIsPlain(ref.referenceKind);
    ClassNameIsPlain(ref.storageClass);
    hide ClassifyLegacyStoragePath, IsDigest, Digits, ClassName, ReferenceClass, Split, ContainsControlCharacter;
  }

  predicate IsWord(s: string) {
    forall k | 0 <= k < |s| :: '_' <= s[k] <= 'z'
  }

  lemma WordIsPlain(s: string)
    requires IsWord(s)
    ensures ',' !in s && '\n' !in s && '\r' !in s
  {
  }

  lemma KindIsPlain(kind: string)
    requires ReferenceClass(kind).Some?
    ensures ',' !in kind && '\n' !in kind && '\r' !in kind
  {
    assert IsWord(kind);
    hide ReferenceClass;
    WordIsPlain(kind);
  }

  lemma ClassNameIsPlain(c: PathClass)
    ensures ',' !in ClassName(c) && '\n' !in ClassName(c) && '\r' !in ClassName(c)
  {
    assert IsWord(ClassName(c));
    hide ClassName;
    WordIsPlain(ClassName(c));
  }

  lemma {:induction false} JoinAvoids(parts: seq<string>, c: char, d: char)
    requires c != d && forall p | p in parts :: d !in p
    ensures d !in Join(parts, c)
  {
    if |parts| <= 1 {
    } else {
      JoinAvoids(parts[1..], c, d);
    }
  }

  /** A row splits back into its fields and contains no line break. */
  lemma RowSplits(ref: StorageReference)
    requires ValidReference(ref)
    ensures Split(Row(ref), ',') == Fields(ref)
    ensures '\n' !in Row(ref) && '\r' !in Row(ref)
  {
    FieldsArePlain(ref);
    SplitJoin(Fields(ref), ',');
    JoinAvoids(Fields(ref), ',', '\n');
    JoinAvoids(Fields(ref), ',', '\r');
  }

  lemma RowInjective(a: StorageReference, b: StorageReference)
    requires ValidReference(a) && ValidReference(b) && Row(a) == Row(b)
    ensures a == b
  {
    RowSplits(a);
    RowSplits(b);
    ValueDigits(a.byteSize, 10);
    ValueDigits(b.byteSize, 10);
  }

  /** The tests the parser makes on the five fields of a row. */
  predicate RowAccepted(storageClass: string, referenceKind: string, storageKey: string, checksum: string,
                        byteText: string)
  {
    var expected := ReferenceClass(referenceKind);
    var routed := ClassifyLegacyStoragePath(storageKey);
    && expected.Some? && ClassName(expected.value) == storageClass
    && routed.Some? && ClassName(routed.value) == storageClass
    && storageKey != ""
    && !ContainsControlCharacter(storageKey)
    && storageKey[0] != '/'
    && '\\' !in storageKey
    && !(exists segment | segment in Split(storageKey, '/') :: segment == "" || segment == "." || segment == "..")
    && IsDigest(checksum)
    && byteText != "" && AllDigits(byteText, 10) && byteText[0] != '0'
    && Value(byteText, 10) <= Tar.MAX_SAFE_INTEGER
  }

  /** The line is the row of a valid reference, and that reference, or it is no such row. */
  function ParseRow(line: string): Result<StorageReference, InventoryError> {
    var fields := Split(line, ',');
    if |fields| != 5 then Err(InvalidRow)
    else if !RowAccepted(fields[0], fields[1], fields[2], fields[3], fields[4]) then Err(NoncanonicalRow)
    else
      Ok(StorageReference(ReferenceClass(fields[1]).value, fields[1], fields[2], fields[3], Value(fields[4], 10)))
  }

  lemma AcceptedRowIsCanonical(line: string)
    requires ParseRow(line).Ok?
    ensures ValidReference(ParseRow(line).value) && Row(ParseRow(line).value) == line
  {
    var fields, ref := Split(line, ','), ParseRow(line).value;
    hide ClassifyLegacyStoragePath, Split, IsDigest;
    DigitsValue(fields[4], 10);
    ValuePositive(fields[4], 10);
    assert Fields(ref) == fields;
    JoinSplit(line, ',');
  }

  lemma CanonicalRowIsAccepted(ref: StorageReference)
    requires ValidReference(ref)
    ensures ParseRow(Row(ref)) == Ok(ref)
  {
    RowSplits(ref);
    LegalKeyIsPlain(ref.storageClass, ref.storageKey);
    ValueDigits(ref.byteSize, 10);
    hide ClassifyLegacyStoragePath, Split, IsDigest, Value, Digits, Row;
  }

  // ---------- the parser ----------

  /** The lines are the rows of the references. */
  ghost predicate IsBody(lines: seq<string>, refs: seq<StorageReference>) {
    && |refs| == |lines|
    && (forall i | 0 <= i < |lines| :: ValidReference(refs[i]) && lines[i] == Row(refs[i]))
    && (forall i, j | 0 <= i < j < |refs| :: refs[i].storageKey != refs[j].storageKey)
    && Ascending(lines)
  }

  lemma BodyRowsParse(lines: seq<string>, refs: seq<StorageReference>, i: nat)
    requires IsBody(lines, refs) && i < |lines|
    ensures ParseRow(lines[i]) == Ok(refs[i])
  {
    CanonicalRowIsAccepted(refs[i]);
  }

  method ParseRows(lines: seq<string>) returns (r: Result<seq<StorageReference>, InventoryError>)
    ensures r.Ok? ==> IsBody(lines, r.value)
    ensures r.Err? ==> forall refs :: !IsBody(lines, refs)
  {
    hide ValidReference, Less, ParseRow, Row;
    var references: seq<StorageReference> := [];
    var seen: set<string> := {};
    var previous := "";
    for i := 0 to |lines|
      invariant |references| == i
      invariant forall j | 0 <= j < i :: ParseRow(lines[j]) == Ok(references[j])
      invariant forall j | 0 <= j < i ::
        ValidReference(references[j]) && lines[j] == Row(references[j]) && lines[j] != ""
      invariant forall j, k | 0 <= j < k < i :: references[j].storageKey != references[k].storageKey
      invariant seen == set j | 0 <= j < i :: references[j].storageKey
      invariant previous == if i == 0 then "" else lines[i - 1]
      invariant forall j | 0 < j < i :: Less(lines[j - 1], lines[j])
    {
      var row := ParseRow(lines[i]);
      forall refs | IsBody(lines, refs)
        ensures row == Ok(refs[i]) && forall j | 0 <= j < i :: refs[j] == references[j]
      {
        forall j | 0 <= j <= i ensures ParseRow(lines[j]) == Ok(refs[j]) {
          BodyRowsParse(lines, refs, j);
        }
      }
      if row.Err? {
        return Err(row.error);
      }
      if row.value.storageKey in seen {
        return Err(NoncanonicalRow);
      }
      if previous != "" && !IsLess(previous, lines[i]) {
        return Err(NoncanonicalOrder);
      }
      AcceptedRowIsCanonical(lines[i]);
      RowNotEmpty(lines[i]);
      seen := seen + {row.value.storageKey};
      previous := lines[i];
      references := references + [row.value];
    }
    return Ok(references);
  }

  lemma RowNotEmpty(line: string)
    requires ParseRow(line).Ok?
    ensures line != ""
  {
  }

  /** The canonical form has no carriage return, and its lines are the header, the rows and a last empty one. */
  lemma RenderSplits(refs: seq<StorageReference>)
    requires ValidInventory(refs)
    ensures '\r' !in Render(refs)
    ensures Split(Render(refs), '\n') == [HEADER] + Rows(refs) + [""]
  {
    var lines := [HEADER] + Rows(refs) + [""];
    HeaderIsPlain();
    forall p | p in lines ensures '\n' !in p && '\r' !in p {
      if p in Rows(refs) {
        var i :| 0 <= i < |refs| && Rows(refs)[i] == p;
        RowSplits(refs[i]);
      }
    }
    SplitJoin(lines, '\n');
    JoinAvoids(lines, '\n', '\r');
  }

  lemma HeaderIsPlain()
    ensures '\n' !in HEADER && '\r' !in HEADER
  {
    assert IsPrinted("storage_class") && IsPrinted(",reference_kind") && IsPrinted(",storage_key");
    assert IsPrinted(",checksum_sha256") && IsPrinted(",byte_size");
  }

  predicate IsPrinted(s: string) {
    forall k | 0 <= k < |s| :: s[k] >= ' '
  }

  lemma BodyRenders(value: string, lines: seq<string>, refs: seq<StorageReference>)
    requires Split(value, '\n') == [HEADER] + lines + [""] && IsBody(lines, refs)
    ensures ValidInventory(refs) && Render(refs) == value
  {
    assert Rows(refs) == lines;
    JoinSplit(value, '\n');
  }

  ghost predicate IsRendering(value: string) {
    exists refs :: ValidInventory(refs) && Render(refs) == value
  }

  lemma RenderedBody(value: string) returns (refs: seq<StorageReference>)
    requires IsRendering(value)
    ensures '\r' !in value && |Split(value, '\n')| >= 2
    ensures Split(value, '\n')[0] == HEADER && Split(value, '\n')[|Split(value, '\n')| - 1] == ""
    ensures IsBody(Split(value, '\n')[1..|Split(value, '\n')| - 1], refs)
  {
    refs :| ValidInventory(refs) && Render(refs) == value;
    RenderSplits(refs);
    var lines := Split(value, '\n');
    assert lines[1..|lines| - 1] == Rows(refs);
    assert IsBody(Rows(refs), refs);
  }

  /** A text is accepted exactly when it is the canonical form of a valid inventory, and the result
      is that inventory. */
  method ParseStorageReferenceInventory(value: string) returns (r: Result<seq<StorageReference>, InventoryError>)
    ensures r.Ok? ==> ValidInventory(r.value) && Render(r.value) == value
    ensures r.Err? ==> !IsRendering(value)
  {
    if IsRendering(value) {
      var refs := RenderedBody(value);
    }
    hide IsRendering, IsBody, Split;
    if '\r' in value {
      return Err(CarriageReturn);
    }
    var lines := Split(value, '\n');
    ghost var all := lines;
    if lines[|lines| - 1] != "" {
      return Err(MissingNewline);
    }
    lines := lines[..|lines| - 1];
    if |lines| == 0 || lines[0] != HEADER {
      return Err(InvalidHeader);
    }
    lines := lines[1..];
    assert lines == all[1..|all| - 1] && all == [HEADER] + lines + [""];
    r := ParseRows(lines);
    if r.Ok? {
      BodyRenders(value, lines, r.value);
    }
  }

  /** An inventory is determined by its text. */
  lemma RenderInjective(a: seq<StorageReference>, b: seq<StorageReference>)
    requires ValidInventory(a) && ValidInventory(b) && Render(a) == Render(b)
    ensures a == b
  {
    RenderSplits(a);
    RenderSplits(b);
    var lines := Split(Render(a), '\n');
    assert Rows(a) == lines[1..|lines| - 1] == Rows(b);
    forall i | 0 <= i < |a| ensures a[i] == b[i] {
      assert Rows(a)[i] == Rows(b)[i];
      RowInjective(a[i], b[i]);
    }
  }

  // ---------- the format, spelled out ----------

  /** The kinds of reference there are, each with the class its files are in. */
  lemma KindsAndClasses(kind: string, c: ArchiveClass)
    ensures ReferenceClass(kind) == Some(c) <==>
      || (c == Covers && kind == "title_cover")
      || (c == Staging && kind == "revision_staging")
      || (c == Publication && kind in {"revision_original", "prose_image", "comic_page", "revision_cover_suggestion"})
    ensures ClassName(c) == if c == Staging then "staging" else if c == Publication then "publication" else "covers"
  {
  }

  /** A row is class, kind, key, digest and size in decimal, with commas between. */
  lemma RowText(ref: StorageReference)
    ensures Row(ref) == ClassName(ref.storageClass) + "," + ref.referenceKind + "," + ref.storageKey + ","
                      + ref.checksumSha256 + "," + Digits(ref.byteSize, 10)
  {
    hide Digits, ClassName;
    var f := Fields(ref);
    JoinFive(f[0], f[1], f[2], f[3], f[4], ',');
    assert f == [f[0], f[1], f[2], f[3], f[4]];
  }

  lemma JoinFive(a: string, b: string, c: string, d: string, e: string, s: char)
    ensures Join([a, b, c, d, e], s) == a + [s] + b + [s] + c + [s] + d + [s] + e
  {
    assert [a, b, c, d, e] == [a] + ([b] + ([c] + ([d] + [e])));
    JoinFront(d, [e], s);
    JoinFront(c, [d] + [e], s);
    JoinFront(b, [c] + ([d] + [e]), s);
    JoinFront(a, [b] + ([c] + ([d] + [e])), s);
  }

  lemma JoinFront(a: string, rest: seq<string>, s: char)
    requires rest != []
    ensures Join([a] + rest, s) == a + [s] + Join(rest, s)
  {
    assert ([a] + rest)[1..] == rest;
  }

  /** An empty inventory is the header line; each further reference adds its row as a line at the end. */
  lemma {:induction false} RenderGrows(refs: seq<StorageReference>, ref: StorageReference)
    ensures Render([]) == HEADER + "\n" && Render(refs + [ref]) == Render(refs) + Row(ref) + "\n"
  {
    hide Row;
    assert [HEADER] + Rows([]) + [""] == [HEADER] + [""];
    JoinFront(HEADER, [""], '\n');
    assert Rows(refs + [ref]) == Rows(refs) + [Row(ref)];
    var lines := [HEADER] + Rows(refs);
    JoinLast(lines, "", '\n');
    JoinLast(lines, Row(ref), '\n');
    JoinLast(lines + [Row(ref)], "", '\n');
    assert [HEADER] + Rows(refs + [ref]) + [""] == lines + [Row(ref)] + [""];
  }

  lemma JoinLast(parts: seq<string>, last: string, c: char)
    requires parts != []
    ensures Join(parts + [last], c) == Join(parts, c) + [c] + last
  {
    JoinAppend(parts, last, c);
  }

  /** The header names the five columns. */
  lemma HeaderText()
    ensures HEADER == "storage_class,reference_kind,storage_key,checksum_sha256,byte_size"
  {
    assert "storage_class" + ",reference_kind" == "storage_class,reference_kind";
    assert "storage_class,reference_kind" + ",storage_key" == "storage_class,reference_kind,storage_key";
    assert "storage_class,reference_kind,storage_key" + ",checksum_sha256"
        == "storage_class,reference_kind,storage_key,checksum_sha256";
  }
}
