/** The upload configuration: the file filter that admits images only, and
    the storage key an uploaded file is saved under. The generated id in front
    of the key is random and is taken as an input. */
module Uploads {
  import opened Wrappers
  import opened Text

  // ---------------------------------------------------------------------------
  // path.extname (POSIX)
  // ---------------------------------------------------------------------------

  /** The path without its trailing '/' characters. */
  function StripTrailingSlashes(path: string): (r: string)
    ensures |r| <= |path| && r == path[..|r|]
    ensures r == [] || r[|r| - 1] != '/'
  {
    if path != [] && path[|path| - 1] == '/' then StripTrailingSlashes(path[..|path| - 1]) else path
  }

  /** The last component of the path. */
  function Basename(path: string): (base: string)
    ensures forall i :: 0 <= i < |base| ==> base[i] != '/'
  {
    var trimmed := StripTrailingSlashes(path);
    trimmed[LastIndexOf(trimmed, '/') + 1..]
  }

  /** `path.extname(path)`: the last component from its last '.' on; empty
      when it has no '.', when its only leading character is that '.', or when
      it is "..". */
  function ExtName(path: string): (r: string)
    ensures r == [] || (r[0] == '.' && forall i :: 0 < i < |r| ==> r[i] != '.' && r[i] != '/')
  {
    var base := Basename(path);
    var dot := LastIndexOf(base, '.');
    if dot <= 0 || IsDotDot(base) then [] else base[dot..]
  }

  /** The name "..". */
  predicate IsDotDot(base: string) {
    |base| == 2 && base[0] == '.' && base[1] == '.'
  }

  /** The extension of a path whose last component is `name` with its last '.' at k > 0. */
  lemma ExtNameAt(path: string, name: string, k: nat)
    requires Basename(path) == name && 0 < k < |name| && LastIndexOf(name, '.') == k
    requires !IsDotDot(name)
    ensures ExtName(path) == name[k..]
  {
  }

  /** A name with no '/' at all is its own last component. */
  lemma BasenameWithoutSlash(name: string)
    requires forall i :: 0 <= i < |name| ==> name[i] != '/'
    ensures Basename(name) == name
  {
    if name != [] {
      assert name[|name| - 1] != '/';
    }
    assert StripTrailingSlashes(name) == name;
    assert LastIndexOf(name, '/') == -1;
  }

  /** A name with a stem, a dot and a dot-free extension has that extension. */
  lemma ExtNameOfStem(stem: string, extension: string)
    requires stem != [] && forall i :: 0 <= i < |stem| ==> stem[i] != '/'
    requires forall i :: 0 <= i < |extension| ==> extension[i] != '.' && extension[i] != '/'
    requires extension != [] || stem != "."
    ensures ExtName(stem + "." + extension) == "." + extension
  {
    var name := stem + "." + extension;
    StemNoSlash(stem, extension);
    BasenameWithoutSlash(name);
    StemLastDot(stem, extension);
    ExtNameAt(name, name, |stem|);
    assert name[|stem|..] == "." + extension;
  }

  lemma StemNoSlash(stem: string, extension: string)
    requires forall i :: 0 <= i < |stem| ==> stem[i] != '/'
    requires forall i :: 0 <= i < |extension| ==> extension[i] != '/'
    ensures var name := stem + "." + extension;
            forall i :: 0 <= i < |name| ==> name[i] != '/'
  {
    var name := stem + "." + extension;
    forall i | 0 <= i < |name| ensures name[i] != '/' {
      if i < |stem| {
        assert name[i] == stem[i];
      } else if i > |stem| {
        assert name[i] == extension[i - |stem| - 1];
      }
    }
  }

  lemma StemLastDot(stem: string, extension: string)
    requires forall i :: 0 <= i < |extension| ==> extension[i] != '.'
    ensures LastIndexOf(stem + "." + extension, '.') == |stem|
  {
    LastIndexOfBehind(stem, '.', extension);
  }

  /** A dot file without another dot has no extension. */
  lemma ExtNameOfDotFile(name: string)
    requires forall i :: 0 <= i < |name| ==> name[i] != '.' && name[i] != '/'
    ensures ExtName("." + name) == []
  {
    var path := "." + name;
    forall i | 0 < i < |path| ensures path[i] != '.' && path[i] != '/' {
      assert path[i] == name[i - 1];
    }
    BasenameWithoutSlash(path);
    LastIndexOfAt(path, '.', 0);
    ExtNameWithoutInnerDot(path, path);
  }

  lemma ExtNameWithoutInnerDot(path: string, name: string)
    requires Basename(path) == name && LastIndexOf(name, '.') <= 0
    ensures ExtName(path) == []
  {
  }

  lemma {:induction false} StripTrailingSlashesLower(path: string)
    ensures StripTrailingSlashes(Lower(path)) == Lower(StripTrailingSlashes(path))
    decreases |path|
  {
    if path != [] {
      LowerPrefix(path, |path| - 1);
      StripTrailingSlashesLower(path[..|path| - 1]);
    }
  }

  lemma BasenameLower(path: string)
    ensures Basename(Lower(path)) == Lower(Basename(path))
  {
    var trimmed := StripTrailingSlashes(path);
    StripTrailingSlashesLower(path);
    LastIndexOfLower(trimmed, '/');
    LowerSuffix(trimmed, LastIndexOf(trimmed, '/') + 1);
  }

  /** Lower-casing the name lower-cases the extension and nothing else. */
  lemma ExtNameLower(path: string)
    ensures ExtName(Lower(path)) == Lower(ExtName(path))
  {
    var base := Basename(path);
    BasenameLower(path);
    LastIndexOfLower(base, '.');
    var dot := LastIndexOf(base, '.');
    if dot > 0 {
      LowerSuffix(base, dot);
    }
    assert IsDotDot(Lower(base)) == IsDotDot(base);
  }

  // ---------------------------------------------------------------------------
  // checkFileType
  // ---------------------------------------------------------------------------

  const ImagesOnlyError: string := "Error: Images Only!"

  /** `/jpeg|jpg|png|gif/.test(s)`: an unanchored search for any of the four words. */
  predicate IsImageWord(s: string) {
    Contains(s, "jpeg") || Contains(s, "jpg") || Contains(s, "png") || Contains(s, "gif")
  }

  /** checkFileType: the callback gets true, or the error string. The
      extension is lower-cased before the test; the mimetype is matched as sent. */
  function CheckFileType(originalname: string, mimetype: string): Result<bool, string> {
    if IsImageWord(Lower(ExtName(originalname))) && IsImageWord(mimetype) then Success(true)
    else Failure(ImagesOnlyError)
  }

  /** The test is a substring search: it passes iff one of the words occurs somewhere. */
  lemma ImageWordIff(s: string)
    ensures IsImageWord(s) <==>
              exists i :: OccursAt(s, "jpeg", i) || OccursAt(s, "jpg", i) || OccursAt(s, "png", i) || OccursAt(s, "gif", i)
  {
    ContainsIffOccurs(s, "jpeg");
    ContainsIffOccurs(s, "jpg");
    ContainsIffOccurs(s, "png");
    ContainsIffOccurs(s, "gif");
  }

  /** The case of the file name never matters. */
  lemma CheckFileTypeNameCase(originalname: string, mimetype: string)
    ensures CheckFileType(Lower(originalname), mimetype) == CheckFileType(originalname, mimetype)
  {
    ExtNameLower(originalname);
    LowerOfLower(ExtName(originalname));
    SameExtensionSameVerdict(Lower(originalname), originalname, mimetype);
  }

  lemma SameExtensionSameVerdict(a: string, b: string, mimetype: string)
    requires Lower(ExtName(a)) == Lower(ExtName(b))
    ensures CheckFileType(a, mimetype) == CheckFileType(b, mimetype)
  {
  }

  /** A file named `<stem>.<word>` for an image word, sent with a mimetype
      containing that word, is accepted; so is any longer extension that
      contains it, since the test is not anchored. */
  lemma ImageFileAccepted(stem: string, extension: string, word: string, at: nat, mimetype: string, mimeAt: nat)
    requires stem != [] && forall i :: 0 <= i < |stem| ==> stem[i] != '/'
    requires forall i :: 0 <= i < |extension| ==> extension[i] != '.' && extension[i] != '/'
    requires word == "jpeg" || word == "jpg" || word == "png" || word == "gif"
    requires OccursAt(Lower(extension), word, at) && OccursAt(mimetype, word, mimeAt)
    ensures CheckFileType(stem + "." + extension, mimetype) == Success(true)
  {
    ExtNameOfStem(stem, extension);
    LowerBehindDot(extension);
    OccursBehind('.', Lower(extension), word, at);
    ImageWordAt(Lower("." + extension), word, at + 1);
    ImageWordAt(mimetype, word, mimeAt);
  }

  lemma LowerBehindDot(extension: string)
    ensures Lower("." + extension) == "." + Lower(extension)
  {
    var ext := "." + extension;
    LowerSuffix(ext, 1);
    assert ext[1..] == extension;
  }

  lemma OccursBehind(c: char, s: string, t: string, at: int)
    requires OccursAt(s, t, at)
    ensures OccursAt([c] + s, t, at + 1)
  {
    var u := [c] + s;
    forall j | at + 1 <= j < at + 1 + |t| ensures u[j] == s[j - 1] {
    }
    assert u[at + 1..at + 1 + |t|] == s[at..at + |t|];
  }

  /** An occurrence of one of the words passes the test. */
  lemma ImageWordAt(s: string, word: string, at: int)
    requires word == "jpeg" || word == "jpg" || word == "png" || word == "gif"
    requires OccursAt(s, word, at)
    ensures IsImageWord(s)
  {
    ImageWordIff(s);
  }

  /** Without any of the four words in the mimetype, every file is refused. */
  lemma NonImageMimetypeRefused(originalname: string, mimetype: string)
    requires forall i :: !OccursAt(mimetype, "jpeg", i) && !OccursAt(mimetype, "jpg", i)
                         && !OccursAt(mimetype, "png", i) && !OccursAt(mimetype, "gif", i)
    ensures CheckFileType(originalname, mimetype) == Failure(ImagesOnlyError)
  {
    ImageWordIff(mimetype);
  }

  // ---------------------------------------------------------------------------
  // The storage key
  // ---------------------------------------------------------------------------

  /** `originalname.replace(/\s+/g, "_")`: every maximal run of white space becomes one '_'. */
  function SanitizeFilename(name: string): (r: string)
    ensures |r| <= |name|
    ensures forall i :: 0 <= i < |r| ==> !IsJsWhitespace(r[i])
    decreases |name|
  {
    if name == [] then []
    else if IsJsWhitespace(name[0]) then
      var rest := TrimStart(name);
      "_" + SanitizeFilename(rest)
    else [name[0]] + SanitizeFilename(name[1..])
  }

  /** A name without white space is kept as it is. */
  lemma {:induction false} SanitizeFilenameUnchanged(name: string)
    requires !HasWhitespace(name)
    ensures SanitizeFilename(name) == name
  {
    if name != [] {
      assert !IsJsWhitespace(name[0]);
      assert !HasWhitespace(name[1..]) by {
        forall i | 0 <= i < |name[1..]| ensures !IsJsWhitespace(name[1..][i]) {
          assert name[1..][i] == name[i + 1];
        }
      }
      SanitizeFilenameUnchanged(name[1..]);
      assert name == [name[0]] + name[1..];
    }
  }

  /** A run of several spaces becomes a single '_'. */
  lemma SanitizeFilenameExample()
    ensures SanitizeFilename("a  b") == "a_b"
  {
    SanitizeOne();
    SanitizeRun();
    assert "a  b"[1..] == "  b";
    assert SanitizeFilename("a  b") == ['a'] + SanitizeFilename("  b");
  }

  lemma SanitizeOne()
    ensures SanitizeFilename("b") == "b"
  {
    assert "b"[1..] == [];
  }

  lemma SanitizeRun()
    requires SanitizeFilename("b") == "b"
    ensures SanitizeFilename("  b") == "_b"
  {
    assert TrimStart("  b") == "b" by {
      assert "  b"[1..] == " b" && " b"[1..] == "b";
    }
  }

  /** The key the file is stored under: the generated id, '_', the sanitized name. */
  function StorageKey(id: string, originalname: string): string {
    id + "_" + SanitizeFilename(originalname)
  }

  /** The key ends with '_' and the sanitized name, and has no white space when the id has none. */
  lemma StorageKeyShape(id: string, originalname: string)
    ensures var key := StorageKey(id, originalname);
            var tail := "_" + SanitizeFilename(originalname);
            |key| >= |tail| && key[|key| - |tail|..] == tail
    ensures !HasWhitespace(id) ==> !HasWhitespace(StorageKey(id, originalname))
  {
    var key := StorageKey(id, originalname);
    var sanitized := SanitizeFilename(originalname);
    if !HasWhitespace(id) {
      forall i | 0 <= i < |key| ensures !IsJsWhitespace(key[i]) {
        if i < |id| {
          assert key[i] == id[i];
        } else if i > |id| {
          assert key[i] == sanitized[i - |id| - 1];
        }
      }
    }
  }
}
