/** The attachment adapter of `backend/src/utils/minio.ts`: the sanitiser that
    turns an uploaded file's name into an object key, the URL derived from it,
    and the key/URL pair an upload returns. The bucket calls themselves are I/O
    and are not modelled. */
module FileNames {
  import opened Common
  import opened Foreign
  import opened Text

  const MaxLength: nat := 100

  /** The public URL prefix of the attachment bucket. */
  const UrlPrefix: string := "http://localhost:9002/ticket-files/"

  /** The whitelist of the rewrite step: ASCII letters and digits, precomposed
      Hangul syllables U+AC00 to U+D7A3, `.`, `_` and `-`. */
  predicate IsAllowed(c: char) {
    ('a' <= c <= 'z') || ('A' <= c <= 'Z') || ('0' <= c <= '9')
    || ('\U{AC00}' <= c <= '\U{D7A3}') || c == '.' || c == '_' || c == '-'
  }

  predicate AllAllowed(s: string) {
    forall i :: 0 <= i < |s| ==> IsAllowed(s[i])
  }

  predicate NoDoubleUnderscore(s: string) {
    forall i :: 0 <= i < |s| - 1 ==> !(s[i] == '_' && s[i + 1] == '_')
  }

  /** The shape of a name the sanitiser can return. */
  predicate IsSafeName(s: string) {
    AllAllowed(s) && NoDoubleUnderscore(s) && |s| <= MaxLength
  }

  /** What the model needs of NFC: a string of whitelisted characters (ASCII
      and precomposed Hangul syllables) is already in normal form. */
  ghost predicate NfcKeepsSafeNames(nfc: string -> string) {
    forall s :: AllAllowed(s) ==> nfc(s) == s
  }

  /** What the model needs of percent-encoding: distinct names get distinct
      encodings. */
  ghost predicate Injective(f: string -> string) {
    forall a, b :: f(a) == f(b) ==> a == b
  }

  /** Step 2: `name.replace(/[^a-zA-Z0-9가-힣._-]/g, '_')`. */
  function ReplaceDisallowed(s: string): (r: string)
    ensures |r| == |s| && AllAllowed(r)
    ensures forall i :: 0 <= i < |s| ==> r[i] == (if IsAllowed(s[i]) then s[i] else '_')
  {
    if s == [] then [] else [if IsAllowed(s[0]) then s[0] else '_'] + ReplaceDisallowed(s[1..])
  }

  /** Step 3: `name.replace(/_+/g, '_')`. */
  function CollapseUnderscores(s: string): (r: string)
    ensures |r| <= |s|
    ensures |s| > 0 ==> |r| > 0 && r[0] == s[0]
    ensures AllAllowed(s) ==> AllAllowed(r)
    ensures NoDoubleUnderscore(r)
    decreases |s|
  {
    if |s| <= 1 then s
    else if s[0] == '_' && s[1] == '_' then CollapseUnderscores(s[1..])
    else [s[0]] + CollapseUnderscores(s[1..])
  }

  /** Collapsing changes nothing in a name without a run of underscores. */
  lemma {:induction false} CollapseKeepsClean(s: string)
    requires NoDoubleUnderscore(s)
    ensures CollapseUnderscores(s) == s
  {
    if |s| > 1 {
      assert NoDoubleUnderscore(s[1..]) by {
        forall i | 0 <= i < |s[1..]| - 1 ensures !(s[1..][i] == '_' && s[1..][i + 1] == '_') {
          assert s[1..][i] == s[i + 1] && s[1..][i + 1] == s[i + 2];
        }
      }
      CollapseKeepsClean(s[1..]);
      assert [s[0]] + s[1..] == s;
    }
  }

  /** The string without its underscores. */
  function WithoutUnderscores(s: string): string {
    if s == [] then [] else (if s[0] == '_' then [] else [s[0]]) + WithoutUnderscores(s[1..])
  }

  /** Collapsing removes underscores only: every other character stays, in
      order. */
  lemma {:induction false} CollapseKeepsOtherCharacters(s: string)
    ensures WithoutUnderscores(CollapseUnderscores(s)) == WithoutUnderscores(s)
    decreases |s|
  {
    if |s| > 1 {
      var r := CollapseUnderscores(s[1..]);
      CollapseKeepsOtherCharacters(s[1..]);
      if !(s[0] == '_' && s[1] == '_') {
        assert ([s[0]] + r)[1..] == r;
      }
    }
  }

  /** The collapse works run by run: a name cut at a place that is not inside
      a run of underscores collapses as its two parts do. */
  lemma {:induction false} CollapseByRuns(a: string, b: string)
    requires a == [] || b == [] || a[|a| - 1] != '_' || b[0] != '_'
    ensures CollapseUnderscores(a + b) == CollapseUnderscores(a) + CollapseUnderscores(b)
    decreases |a|
  {
    if a == [] {
      assert a + b == b;
    } else if b == [] {
      assert a + b == a;
    } else if |a| == 1 {
      assert (a + b)[1..] == b;
    } else {
      assert (a + b)[1..] == a[1..] + b;
      CollapseByRuns(a[1..], b);
    }
  }

  /** A run of underscores, however long, becomes one. */
  lemma {:induction false} CollapseRun(n: nat)
    requires n >= 1
    ensures CollapseUnderscores(Repeat('_', n)) == "_"
  {
    if n > 1 {
      assert Repeat('_', n)[1..] == Repeat('_', n - 1);
      CollapseRun(n - 1);
    }
  }

  /** `s.lastIndexOf(c)`. */
  function LastIndexOf(s: string, c: char): (r: int)
    ensures -1 <= r < |s|
    ensures r >= 0 ==> s[r] == c
    ensures forall j :: r < j < |s| ==> s[j] != c
  {
    if s == [] then -1
    else if s[|s| - 1] == c then |s| - 1
    else LastIndexOf(s[..|s| - 1], c)
  }

  /** `name.lastIndexOf('.') > 0 ? name.slice(name.lastIndexOf('.')) : ''`:
      a dot in front alone does not make an extension. */
  function Extension(name: string): string {
    var dot := LastIndexOf(name, '.');
    if dot > 0 then name[dot..] else ""
  }

  /** An extension is a proper suffix that starts with its only dot. */
  lemma ExtensionShape(name: string)
    ensures var ext := Extension(name);
      |ext| < |name| + 1 && ext == name[|name| - |ext|..]
      && (ext == [] || (|ext| < |name| && ext[0] == '.' && '.' !in ext[1..]))
  {
    var dot := LastIndexOf(name, '.');
    if dot > 0 {
      var ext := name[dot..];
      forall k | 0 <= k < |ext[1..]| ensures ext[1..][k] != '.' {
        assert ext[1..][k] == name[dot + 1 + k];
      }
    }
  }

  /** `s.slice(0, end)`, where a negative end counts back from the end. */
  function SliceTo(s: string, end: int): (r: string)
    ensures |r| == if end < 0 then Max(0, |s| + end) else Min(end, |s|)
    ensures r == s[..|r|]
  {
    if end < 0 then s[..Max(0, |s| + end)] else s[..Min(end, |s|)]
  }

  /** Steps 1 to 3: normalise, rewrite, collapse; what comes out is
      whitelisted, free of underscore runs and no longer than the normal form. */
  function Prepare(codecs: Codecs, filename: string): (p: string)
    ensures AllAllowed(p) && NoDoubleUnderscore(p) && |p| <= |codecs.nfc(filename)|
  {
    CollapseUnderscores(ReplaceDisallowed(codecs.nfc(filename)))
  }

  /** Step 4 as the source writes it: keep the extension and cut the stem to
      `100 - ext.length` characters, with `slice`'s reading of a negative end.
      A name within the limit is kept; a longer one still ends with its whole
      extension; the result breaks the limit exactly when the extension
      alone does. */
  function TruncateAsWritten(name: string): (r: string)
    ensures |name| <= MaxLength ==> r == name
    ensures |name| > MaxLength ==> |Extension(name)| <= |r| && r[|r| - |Extension(name)|..] == Extension(name)
    ensures |r| > MaxLength <==> |Extension(name)| > MaxLength
  {
    ExtensionShape(name);
    if |name| > MaxLength then SliceTo(name, MaxLength - |Extension(name)|) + Extension(name)
    else name
  }

  /** `sanitizeFileName` as written: its result is longer than 100
      characters exactly when the prepared name's extension is. */
  function SanitizeAsWritten(codecs: Codecs, filename: string): (r: string)
    ensures |r| > MaxLength <==> |Extension(Prepare(codecs, filename))| > MaxLength
  {
    TruncateAsWritten(Prepare(codecs, filename))
  }

  /** The extension step 4 can keep: one that fits the limit by itself. */
  function KeptExtension(name: string): string {
    var ext := Extension(name);
    if |ext| <= MaxLength then ext else ""
  }

  /** Step 4 as intended: at most 100 characters, keeping the extension when it
      fits. */
  function Truncate(name: string): string {
    if |name| > MaxLength then name[..MaxLength - |KeptExtension(name)|] + KeptExtension(name)
    else name
  }

  lemma NoDoubleUnderscoreSlice(s: string, a: nat, b: nat)
    requires a <= b <= |s| && NoDoubleUnderscore(s)
    ensures NoDoubleUnderscore(s[a..b])
  {
    forall i | 0 <= i < |s[a..b]| - 1 ensures !(s[a..b][i] == '_' && s[a..b][i + 1] == '_') {
      assert s[a..b][i] == s[a + i] && s[a..b][i + 1] == s[a + i + 1];
    }
  }

  lemma NoDoubleUnderscoreJoin(a: string, b: string)
    requires NoDoubleUnderscore(a) && NoDoubleUnderscore(b)
    requires b == [] || b[0] != '_'
    ensures NoDoubleUnderscore(a + b)
  {
    var s := a + b;
    forall i | 0 <= i < |s| - 1 ensures !(s[i] == '_' && s[i + 1] == '_') {
      if i + 1 < |a| {
        assert s[i] == a[i] && s[i + 1] == a[i + 1];
      } else if i >= |a| {
        assert s[i] == b[i - |a|] && s[i + 1] == b[i + 1 - |a|];
      } else {
        assert s[i + 1] == b[0];
      }
    }
  }

  lemma AllAllowedSlice(s: string, a: nat, b: nat)
    requires a <= b <= |s| && AllAllowed(s)
    ensures AllAllowed(s[a..b])
  {
    forall i | 0 <= i < |s[a..b]| ensures IsAllowed(s[a..b][i]) {
      assert s[a..b][i] == s[a + i];
    }
  }

  /** A stem cut from a whitelisted name without underscore runs, followed by
      its extension, is whitelisted and free of underscore runs. */
  lemma StemAndExtension(name: string, k: nat, ext: string)
    requires AllAllowed(name) && NoDoubleUnderscore(name) && k <= |name|
    requires ext == Extension(name)
    ensures AllAllowed(name[..k] + ext) && NoDoubleUnderscore(name[..k] + ext)
  {
    ExtensionShape(name);
    var start := |name| - |ext|;
    assert ext == name[start..|name|];
    AllAllowedSlice(name, 0, k);
    AllAllowedSlice(name, start, |name|);
    NoDoubleUnderscoreSlice(name, 0, k);
    NoDoubleUnderscoreSlice(name, start, |name|);
    NoDoubleUnderscoreJoin(name[..k], ext);
  }

  /** The intended step 4 always yields a safe name from a prepared one, and
      leaves a name of at most 100 characters alone. */
  lemma TruncateMakesSafe(name: string)
    requires AllAllowed(name) && NoDoubleUnderscore(name)
    ensures IsSafeName(Truncate(name))
    ensures |name| <= MaxLength ==> Truncate(name) == name
  {
    if |name| > MaxLength {
      if |Extension(name)| <= MaxLength {
        StemAndExtension(name, MaxLength - |Extension(name)|, Extension(name));
      } else {
        AllAllowedSlice(name, 0, MaxLength);
        NoDoubleUnderscoreSlice(name, 0, MaxLength);
        assert name[..MaxLength] + "" == name[..MaxLength];
      }
    }
  }

  /** `sanitizeFileName` with the intended step 4: every result is a safe name. */
  function Sanitize(codecs: Codecs, filename: string): (safe: string)
    ensures IsSafeName(safe)
  {
    TruncateMakesSafe(Prepare(codecs, filename));
    Truncate(Prepare(codecs, filename))
  }

  /** Where the extension fits the limit, the intended sanitiser and the one
      as written agree. */
  lemma SanitizeAgreesWithAsWritten(codecs: Codecs, filename: string)
    requires |Extension(Prepare(codecs, filename))| <= MaxLength
    ensures Sanitize(codecs, filename) == SanitizeAsWritten(codecs, filename)
  {
  }

  /** Whatever the name, the sanitiser as written returns only whitelisted
      characters and never two underscores in a row: the kept extension starts
      with a dot, so the cut cannot join two underscores. */
  lemma AsWrittenCharacters(codecs: Codecs, filename: string)
    ensures AllAllowed(SanitizeAsWritten(codecs, filename))
    ensures NoDoubleUnderscore(SanitizeAsWritten(codecs, filename))
  {
    var p := Prepare(codecs, filename);
    if |p| > MaxLength {
      var ext := Extension(p);
      var stem := SliceTo(p, MaxLength - |ext|);
      assert stem == p[..|stem|];
      StemAndExtension(p, |stem|, ext);
    }
  }

  /** With an extension of at most 100 characters the sanitiser as written
      returns at most 100 characters; a prepared name that already fits is
      returned unchanged; a longer one is cut to exactly 100 characters, its
      extension kept exactly and its stem a prefix of the prepared name. */
  lemma AsWrittenLength(codecs: Codecs, filename: string)
    ensures var p := Prepare(codecs, filename);
      var r := SanitizeAsWritten(codecs, filename);
      (|p| <= MaxLength ==> r == p)
      && (|Extension(p)| <= MaxLength ==> |r| <= MaxLength)
      && (|p| > MaxLength && |Extension(p)| <= MaxLength ==>
            |r| == MaxLength && r == p[..MaxLength - |Extension(p)|] + Extension(p))
  {
  }

  /** A name whose only dot is in front has no extension: when it is too long
      it is simply cut to its first 100 characters. */
  lemma LeadingDotIsNoExtension(codecs: Codecs, filename: string)
    requires var p := Prepare(codecs, filename);
      |p| > MaxLength && p[0] == '.' && '.' !in p[1..]
    ensures SanitizeAsWritten(codecs, filename) == Prepare(codecs, filename)[..MaxLength]
  {
    var p := Prepare(codecs, filename);
    assert Extension(p) == "";
  }

  /** A whitelisted name without underscore runs is its own prepared form. */
  lemma PrepareOfSafe(codecs: Codecs, s: string)
    requires NfcKeepsSafeNames(codecs.nfc)
    requires AllAllowed(s) && NoDoubleUnderscore(s)
    ensures Prepare(codecs, s) == s
  {
    assert codecs.nfc(s) == s;
    assert ReplaceDisallowed(s) == s;
    CollapseKeepsClean(s);
  }

  /** Sanitising an already sanitised name changes nothing, for every name. */
  lemma SanitizeIdempotent(codecs: Codecs, filename: string)
    requires NfcKeepsSafeNames(codecs.nfc)
    ensures Sanitize(codecs, Sanitize(codecs, filename)) == Sanitize(codecs, filename)
  {
    var safe := Sanitize(codecs, filename);
    PrepareOfSafe(codecs, safe);
    TruncateMakesSafe(safe);
  }

  /** The sanitiser as written is idempotent too, provided the extension of
      the prepared name fits the limit. */
  lemma AsWrittenIdempotent(codecs: Codecs, filename: string)
    requires NfcKeepsSafeNames(codecs.nfc)
    requires |Extension(Prepare(codecs, filename))| <= MaxLength
    ensures SanitizeAsWritten(codecs, SanitizeAsWritten(codecs, filename))
         == SanitizeAsWritten(codecs, filename)
  {
    SanitizeAgreesWithAsWritten(codecs, filename);
    var safe := Sanitize(codecs, filename);
    SanitizeIdempotent(codecs, filename);
    PrepareOfSafe(codecs, safe);
  }

  /** The name `a.` followed by `k` letters `b`. */
  function LongExtensionName(k: nat): string {
    "a." + Repeat('b', k)
  }

  /** The last dot of a name is at `i` when no dot follows it. */
  lemma LastDotAt(s: string, i: nat)
    requires i < |s| && s[i] == '.'
    requires forall j :: i < j < |s| ==> s[j] != '.'
    ensures LastIndexOf(s, '.') == i
  {
  }

  /** One pass of the sanitiser as written over a name whose only dot is at
      index `dot` and whose extension is longer than 100 characters: the cut
      `slice(0, 100 - ext.length)` has a negative end and keeps the first
      `|name| + 100 - |ext|` = `dot + 100` characters, so the name grows by 100
      characters, and its last dot moves to index `dot + 100`. */
  lemma AsWrittenGrowsOnce(codecs: Codecs, name: string, dot: nat)
    requires NfcKeepsSafeNames(codecs.nfc)
    requires AllAllowed(name) && NoDoubleUnderscore(name)
    requires 0 < dot < |name| && name[dot] == '.'
    requires forall j :: dot < j < |name| ==> name[j] != '.'
    requires |name| - dot > MaxLength
    ensures SanitizeAsWritten(codecs, name) == name[..dot + MaxLength] + name[dot..]
    ensures |SanitizeAsWritten(codecs, name)| == |name| + MaxLength
    ensures AllAllowed(SanitizeAsWritten(codecs, name)) && NoDoubleUnderscore(SanitizeAsWritten(codecs, name))
    ensures var once := SanitizeAsWritten(codecs, name);
      once[dot + MaxLength] == '.' && forall j :: dot + MaxLength < j < |once| ==> once[j] != '.'
  {
    PrepareOfSafe(codecs, name);
    LastDotAt(name, dot);
    assert Extension(name) == name[dot..];
    AsWrittenCharacters(codecs, name);
    var once := name[..dot + MaxLength] + name[dot..];
    forall j | dot + MaxLength < j < |once| ensures once[j] != '.' {
      assert once[j] == name[j - MaxLength];
    }
  }

  /** The sanitiser as written on `a.bbb...b` with at least 100 letters `b`:
      the extension is longer than 100 characters, the result is 102 + k
      characters long instead of at most 100, sanitising it again grows it by
      another 100, and so `getFileUrl` of the stored name names another
      object. */
  lemma AsWrittenLongExtensionGrows(codecs: Codecs, k: nat)
    requires NfcKeepsSafeNames(codecs.nfc) && Injective(codecs.percentEncode)
    requires k >= MaxLength
    ensures |SanitizeAsWritten(codecs, LongExtensionName(k))| == k + 102
    ensures SanitizeAsWritten(codecs, SanitizeAsWritten(codecs, LongExtensionName(k)))
         != SanitizeAsWritten(codecs, LongExtensionName(k))
    ensures var once := SanitizeAsWritten(codecs, LongExtensionName(k));
      UrlPrefix + codecs.percentEncode(SanitizeAsWritten(codecs, once)) != UrlPrefix + codecs.percentEncode(once)
  {
    var n := LongExtensionName(k);
    assert n[1] == '.';
    forall i | 2 <= i < |n| ensures n[i] == 'b' {
      assert n[i] == Repeat('b', k)[i - 2];
    }
    assert AllAllowed(n);
    assert NoDoubleUnderscore(n);
    AsWrittenGrowsOnce(codecs, n, 1);
    var once := SanitizeAsWritten(codecs, n);
    AsWrittenGrowsOnce(codecs, once, 1 + MaxLength);
    var twice := SanitizeAsWritten(codecs, once);
    assert |twice| == |once| + MaxLength;
    assert (UrlPrefix + codecs.percentEncode(twice))[|UrlPrefix|..] == codecs.percentEncode(twice);
    assert (UrlPrefix + codecs.percentEncode(once))[|UrlPrefix|..] == codecs.percentEncode(once);
  }

  /** Where the extension fits the limit, the sanitiser as written returns a
      safe name that a second pass leaves alone. */
  lemma AsWrittenWhenFitting(codecs: Codecs, filename: string)
    ensures NfcKeepsSafeNames(codecs.nfc) && |Extension(Prepare(codecs, filename))| <= MaxLength ==>
      IsSafeName(SanitizeAsWritten(codecs, filename))
      && SanitizeAsWritten(codecs, SanitizeAsWritten(codecs, filename)) == SanitizeAsWritten(codecs, filename)
  {
    if NfcKeepsSafeNames(codecs.nfc) && |Extension(Prepare(codecs, filename))| <= MaxLength {
      SanitizeAgreesWithAsWritten(codecs, filename);
      AsWrittenIdempotent(codecs, filename);
    }
  }

  /** The key and URL `uploadFileToMinio` produces. */
  datatype Upload = Upload(key: string, url: string, safeFileName: string, originalFileName: string)

  /** `getFileUrl(filename)`: the prefix followed by the encoded name, which
      `getFileUrl` sanitises once more. */
  function FileUrl(codecs: Codecs, filename: string): (url: string)
    ensures |UrlPrefix| <= |url| && url[..|UrlPrefix|] == UrlPrefix
    ensures url[|UrlPrefix|..] == codecs.percentEncode(SanitizeAsWritten(codecs, filename))
  {
    UrlPrefix + codecs.percentEncode(SanitizeAsWritten(codecs, filename))
  }

  /** `uploadFileToMinio(originalFileName, ...)` without the bucket I/O: the
      object is stored under the encoded sanitised name, the URL is
      `getFileUrl` of that name, which sanitises it a second time, and the
      original name is returned as given. When the extension fits the limit
      the name is safe and the URL names the stored object. */
  function UploadFile(codecs: Codecs, originalFileName: string): (u: Upload)
    ensures u.originalFileName == originalFileName
    ensures u.safeFileName == SanitizeAsWritten(codecs, originalFileName)
    ensures AllAllowed(u.safeFileName) && NoDoubleUnderscore(u.safeFileName)
    ensures u.key == codecs.percentEncode(u.safeFileName)
    ensures u.url == UrlPrefix + codecs.percentEncode(SanitizeAsWritten(codecs, u.safeFileName))
    ensures NfcKeepsSafeNames(codecs.nfc) && |Extension(Prepare(codecs, originalFileName))| <= MaxLength ==>
      IsSafeName(u.safeFileName) && u.url == UrlPrefix + u.key
  {
    var safe := SanitizeAsWritten(codecs, originalFileName);
    AsWrittenCharacters(codecs, originalFileName);
    AsWrittenWhenFitting(codecs, originalFileName);
    Upload(codecs.percentEncode(safe), FileUrl(codecs, safe), safe, originalFileName)
  }

  /** When both extensions fit the limit, two uploads get the same URL exactly
      when they store under the same name. */
  lemma UrlIdentifiesObject(codecs: Codecs, a: string, b: string)
    requires NfcKeepsSafeNames(codecs.nfc) && Injective(codecs.percentEncode)
    requires |Extension(Prepare(codecs, a))| <= MaxLength && |Extension(Prepare(codecs, b))| <= MaxLength
    ensures UploadFile(codecs, a).url == UploadFile(codecs, b).url
        <==> UploadFile(codecs, a).safeFileName == UploadFile(codecs, b).safeFileName
  {
    var ua, ub := UploadFile(codecs, a), UploadFile(codecs, b);
    if ua.url == ub.url {
      assert ua.url[|UrlPrefix|..] == ua.key;
      assert ub.url[|UrlPrefix|..] == ub.key;
    }
  }

  /** On `a.bbb...b` with at least 100 letters `b`, the URL the upload returns
      is not the prefix followed by the key it stored the object under. */
  lemma UploadUrlMissesObject(codecs: Codecs, k: nat)
    requires NfcKeepsSafeNames(codecs.nfc) && Injective(codecs.percentEncode)
    requires k >= MaxLength
    ensures var u := UploadFile(codecs, LongExtensionName(k));
      u.url != UrlPrefix + u.key && |u.safeFileName| > MaxLength
  {
    AsWrittenLongExtensionGrows(codecs, k);
  }

  /** The upload with the intended sanitiser: always a safe name, and a URL
      that always names the stored object. */
  function UploadFileIntended(codecs: Codecs, originalFileName: string): (u: Upload)
    requires NfcKeepsSafeNames(codecs.nfc)
    ensures u.originalFileName == originalFileName
    ensures IsSafeName(u.safeFileName)
    ensures u.url == UrlPrefix + u.key
  {
    var safe := Sanitize(codecs, originalFileName);
    SanitizeIdempotent(codecs, originalFileName);
    Upload(codecs.percentEncode(safe), UrlPrefix + codecs.percentEncode(Sanitize(codecs, safe)), safe, originalFileName)
  }

  /** Where the extension fits the limit, the upload as written is the
      intended one. */
  lemma UploadAgreesWithIntended(codecs: Codecs, filename: string)
    requires NfcKeepsSafeNames(codecs.nfc) && |Extension(Prepare(codecs, filename))| <= MaxLength
    ensures UploadFile(codecs, filename) == UploadFileIntended(codecs, filename)
  {
    SanitizeAgreesWithAsWritten(codecs, filename);
    AsWrittenIdempotent(codecs, filename);
    SanitizeIdempotent(codecs, filename);
  }

  /** With the intended sanitiser, two uploads get the same URL exactly when
      they store under the same name, whatever the names. */
  lemma IntendedUrlIdentifiesObject(codecs: Codecs, a: string, b: string)
    requires NfcKeepsSafeNames(codecs.nfc) && Injective(codecs.percentEncode)
    ensures UploadFileIntended(codecs, a).url == UploadFileIntended(codecs, b).url
        <==> UploadFileIntended(codecs, a).safeFileName == UploadFileIntended(codecs, b).safeFileName
  {
    var ua, ub := UploadFileIntended(codecs, a), UploadFileIntended(codecs, b);
    if ua.url == ub.url {
      assert ua.url[|UrlPrefix|..] == ua.key;
      assert ub.url[|UrlPrefix|..] == ub.key;
    }
  }
}
