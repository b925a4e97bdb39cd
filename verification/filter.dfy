/** The entry filter of `main`: a directory entry is handed to the pipeline
    when it is not a directory and its lower-cased extension is ".jpg" or
    ".jpeg". The extension is Go's `filepath.Ext` of `root + name`. */
module Filter {
  import opened Paths

  /** One entry of the (non-recursive) directory listing. */
  datatype DirEntry = DirEntry(name: string, isDir: bool)

  /** `filepath.Ext`: the suffix from the last '.' of the last path element,
      or "" when that element has no '.'. */
  function Ext(path: string): (ext: string)
    decreases |path|
  {
    if |path| == 0 || path[|path| - 1] == '/' then
      ""
    else if path[|path| - 1] == '.' then
      path[|path| - 1..]
    else
      var ext := Ext(path[..|path| - 1]);
      if ext == "" then "" else ext + [path[|path| - 1]]
  }

  /** `unicode.ToLower` on one character, for the ASCII letters. */
  function LowerChar(c: char): (r: char)
    ensures !('A' <= r <= 'Z')
    ensures 'a' <= r <= 'z' <==> 'a' <= c <= 'z' || 'A' <= c <= 'Z'
    ensures r != c ==> 'A' <= c <= 'Z'
    ensures 'A' <= c <= 'Z' ==> r as int - 'a' as int == c as int - 'A' as int
  {
    if 'A' <= c <= 'Z' then (c as int + ('a' as int - 'A' as int)) as char else c
  }

  /** `strings.ToLower`, character by character. */
  function ToLower(s: string): (r: string)
    ensures |r| == |s|
  {
    if s == [] then [] else [LowerChar(s[0])] + ToLower(s[1..])
  }

  /** Lower-casing maps every character on its own. */
  lemma {:induction false} ToLowerAt(s: string, i: int)
    requires 0 <= i < |s|
    ensures ToLower(s)[i] == LowerChar(s[i])
  {
    if i > 0 {
      ToLowerAt(s[1..], i - 1);
    }
  }

  /** Lower-casing `s` character by character yields `t`. */
  lemma {:induction false} LowersTo(s: string, t: string)
    requires |s| == |t| && forall i :: 0 <= i < |s| ==> LowerChar(s[i]) == t[i]
    ensures ToLower(s) == t
  {
    forall i | 0 <= i < |s|
      ensures ToLower(s)[i] == t[i]
    {
      ToLowerAt(s, i);
    }
  }

  predicate IsJpegExtension(ext: string)
  {
    ext == ".jpg" || ext == ".jpeg"
  }

  /** The condition of the `if` in `main`'s loop over the listing. */
  predicate Selected(root: string, entry: DirEntry)
  {
    var extension := ToLower(Ext(root + entry.name));
    !entry.isDir && IsJpegExtension(extension)
  }

  /** `s` ends with the lower-case `suffix` once `s` is lower-cased. */
  ghost predicate EndsWithIgnoringCase(s: string, suffix: string)
  {
    |suffix| <= |s| && ToLower(s[|s| - |suffix|..]) == suffix
  }

  /** One more character at the end of a path: a '/' clears the extension, a
      '.' starts a new one, anything else extends a pending one. */
  lemma ExtSnoc(path: string, c: char)
    ensures Ext(path + [c]) ==
      if c == '/' then ""
      else if c == '.' then [c]
      else if Ext(path) == "" then ""
      else Ext(path) + [c]
  {
    var s := path + [c];
    assert s[..|s| - 1] == path;
    assert s[|s| - 1] == c;
  }

  /** The extension is a suffix of the path: empty, or a '.' followed by
      characters that are neither '.' nor '/'. */
  lemma {:induction false} ExtIsLastDotSuffix(path: string)
    ensures var ext := Ext(path);
      |ext| <= |path| && ext == path[|path| - |ext|..] &&
      (ext != [] ==> ext[0] == '.') &&
      forall i :: 0 < i < |ext| ==> ext[i] != '.' && ext[i] != '/'
    decreases |path|
  {
    if |path| > 0 {
      var init, c := path[..|path| - 1], path[|path| - 1];
      assert path == init + [c];
      ExtIsLastDotSuffix(init);
      ExtSnoc(init, c);
    }
  }

  /** The directory part of the path does not affect the extension of a
      plain file name. */
  lemma {:induction false} ExtOfNameInDir(root: string, name: string)
    requires EndsWithSlash(root) && '/' !in name
    ensures Ext(root + name) == Ext(name)
    decreases |name|
  {
    if name == [] {
      assert root + name == root;
    } else {
      var n := |name| - 1;
      var init, c := name[..n], name[n];
      assert name == init + [c];
      assert root + name == (root + init) + [c];
      assert c != '/' by { assert c in name; }
      assert '/' !in init by { assert forall x :: x in init ==> x in name; }
      ExtOfNameInDir(root, init);
      ExtSnoc(root + init, c);
      ExtSnoc(init, c);
    }
  }

  /** A name without a '.' has no extension, and a name with one has one. */
  lemma {:induction false} ExtEmptyIffNoDot(name: string)
    requires '/' !in name
    ensures Ext(name) == "" <==> '.' !in name
    decreases |name|
  {
    if name != [] {
      var n := |name| - 1;
      assert name == name[..n] + [name[n]];
      assert forall c :: c in name[..n] ==> c in name;
      ExtEmptyIffNoDot(name[..n]);
    }
  }

  /** A final '.'-led suffix with no other '.' or '/' is the extension. */
  lemma {:induction false} ExtOfSuffix(prefix: string, tail: string)
    requires |tail| > 0 && tail[0] == '.'
    requires forall i :: 0 < i < |tail| ==> tail[i] != '.' && tail[i] != '/'
    ensures Ext(prefix + tail) == tail
    decreases |tail|
  {
    var s := prefix + tail;
    if |tail| > 1 {
      var t := tail[..|tail| - 1];
      assert s[..|s| - 1] == prefix + t;
      ExtOfSuffix(prefix, t);
    } else {
      assert s[|s| - 1..] == tail;
    }
  }

  /** Lower-casing a character yields '.' only from '.'. */
  lemma LowerCharDot(c: char)
    ensures LowerChar(c) == '.' <==> c == '.'
    ensures LowerChar(c) != '/' ==> c != '/'
  {
  }

  /** A suffix whose lower-cased form is ".jpg" or ".jpeg" is an extension in
      Go's sense: it starts with its only '.' and holds no '/'. */
  lemma JpegSuffixIsExtension(prefix: string, tail: string)
    requires IsJpegExtension(ToLower(tail))
    ensures Ext(prefix + tail) == tail
  {
    var lower := ToLower(tail);
    forall i | 0 <= i < |tail|
      ensures (tail[i] == '.') == (i == 0) && tail[i] != '/'
    {
      ToLowerAt(tail, i);
      LowerCharDot(tail[i]);
    }
    ExtOfSuffix(prefix, tail);
  }

  /** Only names ending in a JPEG extension pass the filter. */
  lemma SelectedHasJpegSuffix(root: string, entry: DirEntry)
    requires EndsWithSlash(root) && '/' !in entry.name
    requires Selected(root, entry)
    ensures !entry.isDir
    ensures EndsWithIgnoringCase(entry.name, ".jpg") || EndsWithIgnoringCase(entry.name, ".jpeg")
  {
    var name := entry.name;
    ExtOfNameInDir(root, name);
    ExtIsLastDotSuffix(name);
    var ext := Ext(name);
    var n := |ext|;
    assert ext == name[|name| - n..];
    if ToLower(ext) == ".jpg" {
      assert EndsWithIgnoringCase(name, ".jpg");
    } else {
      assert EndsWithIgnoringCase(name, ".jpeg");
    }
  }

  /** Every plain file whose name ends in a JPEG extension passes the filter. */
  lemma JpegSuffixSelected(root: string, entry: DirEntry, suffix: string)
    requires EndsWithSlash(root) && '/' !in entry.name
    requires !entry.isDir && IsJpegExtension(suffix) && EndsWithIgnoringCase(entry.name, suffix)
    ensures Selected(root, entry)
  {
    var name := entry.name;
    var k := |name| - |suffix|;
    assert name == name[..k] + name[k..];
    JpegSuffixIsExtension(name[..k], name[k..]);
    ExtOfNameInDir(root, name);
  }

  /** For a plain file name in a slash-terminated directory the filter accepts
      exactly the non-directories whose name ends in ".jpg" or ".jpeg" in any
      mix of upper and lower case. */
  lemma SelectedIffJpegSuffix(root: string, entry: DirEntry)
    requires EndsWithSlash(root) && '/' !in entry.name
    ensures Selected(root, entry) <==>
      !entry.isDir && (EndsWithIgnoringCase(entry.name, ".jpg") || EndsWithIgnoringCase(entry.name, ".jpeg"))
  {
    if Selected(root, entry) {
      SelectedHasJpegSuffix(root, entry);
    } else if !entry.isDir && EndsWithIgnoringCase(entry.name, ".jpg") {
      JpegSuffixSelected(root, entry, ".jpg");
    } else if !entry.isDir && EndsWithIgnoringCase(entry.name, ".jpeg") {
      JpegSuffixSelected(root, entry, ".jpeg");
    }
  }

  /** A name without any '.' is never selected. */
  lemma NoDotNeverSelected(root: string, entry: DirEntry)
    requires EndsWithSlash(root) && '/' !in entry.name && '.' !in entry.name
    ensures !Selected(root, entry)
  {
    ExtOfNameInDir(root, entry.name);
    ExtEmptyIffNoDot(entry.name);
  }

  /** Re-bracketing a concatenation of three strings. */
  lemma Rebracket(a: string, b: string, c: string)
    ensures a + (b + c) == (a + b) + c
  {
    var p, q := a + (b + c), (a + b) + c;
    assert |p| == |q|;
    forall i | 0 <= i < |p|
      ensures p[i] == q[i]
    {
    }
  }

  /** Upper-case and mixed-case extensions are accepted, whatever the
      directory and the base name. */
  lemma CaseInsensitiveExamples(root: string, base: string)
    ensures Selected(root, DirEntry(base + ".JPG", false))
    ensures Selected(root, DirEntry(base + ".JpEg", false))
  {
    assert Selected(root, DirEntry(base + ".JPG", false)) by {
      LowersTo(".JPG", ".jpg");
      Rebracket(root, base, ".JPG");
      JpegSuffixIsExtension(root + base, ".JPG");
    }
    assert Selected(root, DirEntry(base + ".JpEg", false)) by {
      LowersTo(".JpEg", ".jpeg");
      Rebracket(root, base, ".JpEg");
      JpegSuffixIsExtension(root + base, ".JpEg");
    }
  }

  /** Only the last extension counts: a name whose final '.'-led suffix is not
      ".jpg" or ".jpeg" in any case is rejected, whatever comes before it (so
      "scan.jpg.png" is rejected). */
  lemma LastExtensionDecides(root: string, base: string, tail: string)
    requires |tail| > 0 && tail[0] == '.'
    requires forall i :: 0 < i < |tail| ==> tail[i] != '.' && tail[i] != '/'
    requires !IsJpegExtension(ToLower(tail))
    ensures !Selected(root, DirEntry(base + tail, false))
  {
    Rebracket(root, base, tail);
    ExtOfSuffix(root + base, tail);
  }
}
