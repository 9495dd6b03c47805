/** `fileNameFromPath` and the numbering rule of `savePath`. */
module FileNames {
  import opened Wrappers
  import Py

  // ---------------------------------------------------------------------
  // fileNameFromPath
  // ---------------------------------------------------------------------

  /** `fileNameFromPath` as written: the characters after the last '/' up
      to the `cropExtension`-th character from the end, sliced as
      `path[cropDirectory:-cropExtension]`. When `cropExtension` is 0 the
      slice ends at position 0, so the result is empty. */
  function FileNameFromPathAsWritten(path: Py.Object, cropExt: bool := true): (r: Option<string>)
    ensures r.None? <==> path.NotStr?
  {
    match path
    case NotStr => None
    case Str(p) =>
      var cropExtension: int :=
        if cropExt then (match Py.RIndex(p, '.') case Some(k) => |p| - k case None => 0) else 0;
      var cropDirectory: int := match Py.RIndex(p, '/') case Some(k) => k + 1 case None => 0;
      Some(Py.Slice(p, cropDirectory, -cropExtension))
  }

  /** What follows the last '/' (the whole path when there is none). */
  function BaseName(p: string): (r: string)
    ensures '/' !in r
    ensures |r| <= |p| && r == p[|p| - |r|..]
    ensures |r| < |p| ==> p[|p| - |r| - 1] == '/'
  {
    match Py.RIndex(p, '/')
    case Some(k) => p[k + 1..]
    case None => p
  }

  /** The file name as evidently intended: the part after the last '/',
      without the extension from its last '.' on when `cropExt` is set. */
  function FileNameFromPath(path: Py.Object, cropExt: bool := true): (r: Option<string>)
    ensures r.None? <==> path.NotStr?
    ensures r.Some? ==> '/' !in r.value && r.value <= BaseName(path.s)
    ensures r.Some? && !cropExt ==> r.value == BaseName(path.s)
    ensures r.Some? && cropExt ==> '.' in BaseName(path.s) || r.value == BaseName(path.s)
  {
    match path
    case NotStr => None
    case Str(p) =>
      var name := BaseName(p);
      if cropExt then
        match Py.RIndex(name, '.')
        case Some(k) => Some(name[..k])
        case None => Some(name)
      else Some(name)
  }

  /** As written, keeping the extension always yields the empty string. */
  lemma KeepExtensionAsWritten(p: string)
    ensures FileNameFromPathAsWritten(Py.Str(p), false) == Some("")
  {
  }

  /** As written, a path without any '.' yields the empty string even when
      the extension is to be cropped. */
  lemma NoExtensionAsWritten(p: string)
    requires '.' !in p
    ensures FileNameFromPathAsWritten(Py.Str(p), true) == Some("")
  {
  }

  /** Where the last '/' ends: the start of the base name. */
  function NameStart(p: string): (start: nat)
    ensures start <= |p| && BaseName(p) == p[start..]
  {
    match Py.RIndex(p, '/')
    case Some(k) => k + 1
    case None => 0
  }

  /** In `dir/name` with no '/' in `name`, the name starts after `dir/`. */
  lemma NameStartAfterSlash(dir: string, name: string)
    requires '/' !in name
    ensures Py.RIndex(dir + "/" + name, '/') == Some(|dir|)
    ensures NameStart(dir + "/" + name) == |dir| + 1
  {
    Py.RIndexOfSeparator(dir, name, '/');
  }

  /** As written, a last '.' before the name makes the slice empty. */
  lemma AsWrittenEmptyBefore(p: string, d: nat)
    requires Py.RIndex(p, '.') == Some(d) && d < NameStart(p)
    ensures FileNameFromPathAsWritten(Py.Str(p), true) == Some("")
  {
    assert Py.SliceBound(d - |p|, |p|) == d;
  }

  /** As written, a '.' that only occurs in the directory part (as in
      "./data") makes the result empty. */
  lemma DotInDirectoryAsWritten(dir: string, name: string)
    requires '.' in dir && '/' !in name && '.' !in name
    ensures FileNameFromPathAsWritten(Py.Str(dir + "/" + name), true) == Some("")
  {
    NameStartAfterSlash(dir, name);
    DotStaysInDirectory(dir, name);
    AsWrittenEmptyBefore(dir + "/" + name, Py.RIndex(dir, '.').value);
  }

  /** In `dir/name` with no '.' in `name`, the last '.' is the one in `dir`. */
  lemma DotStaysInDirectory(dir: string, name: string)
    requires '.' !in name
    ensures Py.RIndex(dir + "/" + name, '.') == Py.RIndex(dir, '.')
  {
    assert dir + "/" + name == dir + ("/" + name);
    Py.RIndexPastSuffix(dir, "/" + name, '.');
  }

  /** As written, with a '.' at `d` and the name starting at or before it,
      the slice ends at that '.'. */
  lemma AsWrittenCropsAt(p: string, d: nat)
    requires Py.RIndex(p, '.') == Some(d) && NameStart(p) <= d
    ensures FileNameFromPathAsWritten(Py.Str(p), true) == Some(p[NameStart(p)..d])
  {
    assert Py.SliceBound(d - |p|, |p|) == d;
  }

  /** The intended reading crops at the last '.' of the base name. */
  lemma IntendedCropsAt(p: string, d: nat)
    requires Py.RIndex(p, '.') == Some(d) && NameStart(p) <= d
    ensures FileNameFromPath(Py.Str(p), true) == Some(p[NameStart(p)..d])
  {
    var start := NameStart(p);
    Py.RIndexInSuffix(p, start, d, '.');
    CropsBaseNameAt(p, d - start);
    assert p[start..][..d - start] == p[start..d];
  }

  /** The intended reading crops the base name at its last '.'. */
  lemma CropsBaseNameAt(p: string, k: nat)
    requires Py.RIndex(BaseName(p), '.') == Some(k)
    ensures k <= |BaseName(p)|
    ensures FileNameFromPath(Py.Str(p), true) == Some(BaseName(p)[..k])
  {
  }

  /** When the last '.' follows the last '/', the code as written and the
      intended reading agree. */
  lemma AsWrittenAgreesWithExtension(p: string)
    requires Py.RIndex(p, '.').Some?
    requires Py.RIndex(p, '/').None? || Py.RIndex(p, '/').value < Py.RIndex(p, '.').value
    ensures FileNameFromPathAsWritten(Py.Str(p), true) == FileNameFromPath(Py.Str(p), true)
  {
    var d := Py.RIndex(p, '.').value;
    AsWrittenCropsAt(p, d);
    IntendedCropsAt(p, d);
  }

  /** The intended reading keeps a file name with its extension. */
  lemma FileNameKeepsExtension(dir: string, name: string)
    requires '/' !in name
    ensures FileNameFromPath(Py.Str(dir + "/" + name), false) == Some(name)
  {
    Py.RIndexOfSeparator(dir, name, '/');
  }

  /** The intended reading returns a name without extension unchanged. */
  lemma FileNameWithoutExtension(dir: string, name: string)
    requires '/' !in name && '.' !in name
    ensures FileNameFromPath(Py.Str(dir + "/" + name), true) == Some(name)
  {
    Py.RIndexOfSeparator(dir, name, '/');
  }

  /** The intended reading crops exactly the extension after the last '.'. */
  lemma FileNameCropsExtension(dir: string, name: string, ext: string)
    requires '/' !in name && '/' !in ext && '.' !in ext
    ensures FileNameFromPath(Py.Str(dir + "/" + name + "." + ext), true) == Some(name)
  {
    var base := name + "." + ext;
    assert dir + "/" + name + "." + ext == dir + "/" + base;
    NameStartAfterSlash(dir, base);
    Py.RIndexOfSeparator(name, ext, '.');
    assert base[..|name|] == name;
  }

  // ---------------------------------------------------------------------
  // savePath (numbering only; the glob result is an input)
  // ---------------------------------------------------------------------

  /** `f[numStart:-numCrop]`: where the number sits in a file name. */
  function NumberField(f: string, numStart: nat, numCrop: nat): string
  {
    Py.Slice(f, numStart, -(numCrop as int))
  }

  /** The number of a file, when its number field is all digits. */
  function FileNumber(f: string, numStart: nat, numCrop: nat): Option<nat>
  {
    var field := NumberField(f, numStart, numCrop);
    if Py.IsDigits(field) then Some(Py.ParseDigits(field)) else None
  }

  /** The largest number among `files`, 0 when none has one: no file that
      carries a number carries one above it. */
  function MaxNumber(files: seq<string>, numStart: nat, numCrop: nat): (r: nat)
    ensures forall i | 0 <= i < |files| && FileNumber(files[i], numStart, numCrop).Some? ::
      FileNumber(files[i], numStart, numCrop).value <= r
  {
    if files == [] then 0
    else
      var m := MaxNumber(files[..|files| - 1], numStart, numCrop);
      match FileNumber(files[|files| - 1], numStart, numCrop)
      case Some(v) => if v > m then v else m
      case None => m
  }

  /** `numCrop`: the length of the extension of the first file, dot included. */
  function ExtensionLength(f: string): nat
    requires '.' in f
  {
    |f| - Py.RIndex(f, '.').value
  }

  /** The next free number for the files `glob` found: one more than the
      largest number, where every number field is cut with the first
      file's extension length. */
  function NextNumber(prefix: string, files: seq<string>): (r: nat)
    requires |files| > 0 ==> '.' in files[0]
    ensures r >= 1
    ensures forall i | 0 <= i < |files| && FileNumber(files[i], |prefix|, ExtensionLength(files[0])).Some? ::
      FileNumber(files[i], |prefix|, ExtensionLength(files[0])).value < r
  {
    if |files| == 0 then 1
    else MaxNumber(files, |prefix|, ExtensionLength(files[0])) + 1
  }

  /** `savePath(name, dir)` for the files `glob` returned for the pattern
      `dir + name + " *.*"`: the path `dir + name + " "` followed by the
      next free number. */
  method SavePath(name: string, dir: string, files: seq<string>) returns (path: string)
    requires |files| > 0 ==> '.' in files[0]
    ensures path == dir + name + " " + Py.Digits(NextNumber(dir + name + " ", files))
  {
    var filesMax := 0;
    if |files| > 0 {
      var numStart := |dir + name + " "|;
      var numCrop := |files[0]| - Py.RIndex(files[0], '.').value;
      for i := 0 to |files|
        invariant filesMax == MaxNumber(files[..i], numStart, numCrop)
      {
        assert files[..i + 1][..i] == files[..i];
        var fNum := NumberField(files[i], numStart, numCrop);
        if !Py.IsDigits(fNum) {
          continue;
        }
        if Py.ParseDigits(fNum) > filesMax {
          filesMax := Py.ParseDigits(fNum);
        }
      }
      assert files[..|files|] == files;
    }
    path := dir + name + " " + Py.Digits(filesMax + 1);
  }

  /** The maximum is 0 or the number of some file. */
  lemma {:induction false} MaxNumberIsAttained(files: seq<string>, numStart: nat, numCrop: nat)
    returns (i: int)
    ensures MaxNumber(files, numStart, numCrop) == 0 ==> i == -1
    ensures MaxNumber(files, numStart, numCrop) > 0 ==>
      0 <= i < |files| && FileNumber(files[i], numStart, numCrop) == Some(MaxNumber(files, numStart, numCrop))
  {
    if files == [] {
      i := -1;
    } else {
      var init := files[..|files| - 1];
      var j := MaxNumberIsAttained(init, numStart, numCrop);
      var m := MaxNumber(files, numStart, numCrop);
      if m == 0 {
        i := -1;
      } else if FileNumber(files[|files| - 1], numStart, numCrop) == Some(m) {
        i := |files| - 1;
      } else {
        i := j;
      }
    }
  }
}
