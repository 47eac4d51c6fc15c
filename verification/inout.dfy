/** inout/inout.py: the module-level choice of input and output streams from the
    command line, the `open_` wrapper, and `_replace_extension`. Files and the
    standard streams are abstract; whether an open succeeds is a parameter. */
module Inout {
  import opened Py

  /** `input_name` and `output_name` after the module's argument parsing. */
  datatype Names = Names(input: Option<string>, output: Option<string>)

  datatype Mode = Read | WriteBinary

  /** An alias the module exports: a standard stream, an opened file, or `None`
      when opening failed. */
  datatype Stream = Stdin | Stdout | File(name: string, mode: Mode) | NoStream

  datatype Streams = Streams(infile: Stream, outfile: Stream, infileOnly: bool)

  /** The `try` block: `argv[1]` (with `'-'` meaning stdin), then `argv[2]`; an
      `IndexError` ends the block and leaves the rest `None`. */
  function ParseArgv(argv: seq<string>): (n: Names)
    ensures n.input == (if |argv| >= 2 && argv[1] != "-" then Some(argv[1]) else None)
    ensures n.output == (if |argv| >= 3 then Some(argv[2]) else None)
  {
    if |argv| < 2 then Names(None, None)
    else
      var input := if argv[1] == "-" then None else Some(argv[1]);
      if |argv| < 3 then Names(input, None) else Names(input, Some(argv[2]))
  }

  /** Python truth of an optional name: present and non-empty. */
  predicate Truthy(name: Option<string>) {
    name.Some? && name.value != ""
  }

  /** `open_(name, mode)`: the opened file, or `None` instead of the exception. */
  function Open(name: string, mode: Mode, opens: (string, Mode) -> bool): (s: Stream)
    ensures s == NoStream <==> !opens(name, mode)
    ensures s != NoStream ==> s == File(name, mode)
  {
    if opens(name, mode) then File(name, mode) else NoStream
  }

  /** The module-level selection of `infile`, `outfile` and `infile_only`. */
  function Select(n: Names, opens: (string, Mode) -> bool): Streams {
    var infile := if Truthy(n.input) then Open(n.input.value, Read, opens) else Stdin;
    if Truthy(n.output) then
      Streams(infile, Open(n.output.value, WriteBinary, opens), false)
    else
      Streams(infile, Stdout, Truthy(n.input))
  }

  /** The streams chosen for a command line, read off `argv` directly: standard
      input unless `argv[1]` is a non-empty name other than `'-'`; standard output
      unless `argv[2]` is a non-empty name; a failed open gives `None`, never a
      standard stream; and `infile_only` holds exactly when an input file is named
      and no output file is. */
  lemma SelectFromArgv(argv: seq<string>, opens: (string, Mode) -> bool)
    ensures var s := Select(ParseArgv(argv), opens);
            var namedIn := |argv| >= 2 && argv[1] != "" && argv[1] != "-";
            var namedOut := |argv| >= 3 && argv[2] != "";
            (s.infile == Stdin <==> !namedIn) &&
            (namedIn ==> s.infile == (if opens(argv[1], Read) then File(argv[1], Read) else NoStream)) &&
            (s.outfile == Stdout <==> !namedOut) &&
            (namedOut ==> s.outfile == (if opens(argv[2], WriteBinary) then File(argv[2], WriteBinary) else NoStream)) &&
            (s.infileOnly <==> namedIn && !namedOut)
  {
  }

  // ---------------------------------------------------------------------------
  // os.path.splitext (POSIX)

  /** The last index of `c` in `s`, or -1 (`str.rfind`). */
  function LastIndex(s: string, c: char): (r: int)
    ensures -1 <= r < |s|
    ensures r >= 0 ==> s[r] == c
    ensures forall i :: r < i < |s| ==> s[i] != c
    decreases |s|
  {
    if |s| == 0 then -1
    else if s[|s| - 1] == c then |s| - 1
    else LastIndex(s[..|s| - 1], c)
  }

  /** True when some character of `s[from..to]` is not a dot. */
  predicate HasNonDot(s: string, from: int, to: int)
    requires 0 <= from && to <= |s|
  {
    exists i :: from <= i < to && s[i] != '.'
  }

  /** `os.path.splitext(p)`: the extension starts at the last dot when that dot is
      in the final path component and is not one of the component's leading dots. */
  function SplitExt(p: string): (r: (string, string))
    ensures r.0 + r.1 == p
  {
    var sep := LastIndex(p, '/');
    var dot := LastIndex(p, '.');
    if dot > sep && HasNonDot(p, sep + 1, dot) then (p[..dot], p[dot..]) else (p, "")
  }

  /** `_replace_extension(filename, newext)`: `'.'.join((root, newext))`. */
  function ReplaceExtension(filename: string, newext: string): (r: string)
    ensures r == SplitExt(filename).0 + "." + newext
  {
    var (root, _) := SplitExt(filename);
    root + "." + newext
  }

  /** The extension `SplitExt` splits off is empty or a dot followed by neither a
      dot nor a slash, and a non-empty extension leaves a root whose last component
      has a character other than a dot. */
  lemma ExtensionShape(p: string)
    ensures var (root, ext) := SplitExt(p);
            ext == "" ||
            (ext[0] == '.' && (forall i :: 1 <= i < |ext| ==> ext[i] != '.' && ext[i] != '/') &&
             HasNonDot(root, LastIndex(root, '/') + 1, |root|))
  {
  }

  /** `_replace_extension('inputfile.ext', 'new')` is `'inputfile.new'`. */
  lemma ReplaceExtensionExample()
    ensures ReplaceExtension("inputfile.ext", "new") == "inputfile.new"
  {
    var f := "inputfile.ext";
    assert LastIndex(f, '/') == -1;
    assert f[9] == '.' && f[10] != '.' && f[11] != '.' && f[12] != '.';
    assert LastIndex(f, '.') == 9;
    assert f[0] != '.';
    assert f[..9] + "." + "new" == "inputfile.new";
  }

  /** Replacing an extension and splitting again gives back the same root and the
      new extension, when the new extension has no dot or slash and the root's last
      component is not all dots. */
  lemma ReplaceThenSplit(filename: string, newext: string)
    requires forall i :: 0 <= i < |newext| ==> newext[i] != '.' && newext[i] != '/'
    requires var root := SplitExt(filename).0; HasNonDot(root, LastIndex(root, '/') + 1, |root|)
    ensures SplitExt(ReplaceExtension(filename, newext)) == (SplitExt(filename).0, "." + newext)
  {
    var root := SplitExt(filename).0;
    var ext := "." + newext;
    var r := root + ext;
    assert ReplaceExtension(filename, newext) == r;
    var sep := LastIndex(root, '/');
    assert LastIndex(ext, '.') == 0 by {
      assert ext[0] == '.';
    }
    assert LastIndex(ext, '/') == -1;
    LastIndexAppend(root, ext, '.');
    LastIndexAppend(root, ext, '/');
    var k :| sep + 1 <= k < |root| && root[k] != '.';
    assert r[k] == root[k];
    SplitAtDot(r, sep, |root|);
    assert r[..|root|] == root;
    assert r[|root|..] == ext;
  }

  /** `SplitExt` cuts at `dot` once the last slash and last dot are known and the
      component between them is not all dots. */
  lemma SplitAtDot(p: string, sep: int, dot: int)
    requires LastIndex(p, '/') == sep && LastIndex(p, '.') == dot && sep < dot
    requires HasNonDot(p, sep + 1, dot)
    ensures SplitExt(p) == (p[..dot], p[dot..])
  {
  }

  /** `LastIndex` over a concatenation: the last occurrence in `b` if there is one,
      otherwise the last occurrence in `a`. */
  lemma {:induction false} LastIndexAppend(a: string, b: string, c: char)
    ensures LastIndex(a + b, c) == (if LastIndex(b, c) >= 0 then |a| + LastIndex(b, c) else LastIndex(a, c))
    decreases |b|
  {
    if |b| == 0 {
      assert a + b == a;
    } else if b[|b| - 1] != c {
      var s := a + b;
      assert s[..|s| - 1] == a + b[..|b| - 1];
      LastIndexAppend(a, b[..|b| - 1], c);
    }
  }
}
