/** The `includeCode` template filter of the default renderer. Every match of
    the regular expression `/#includeCode:(.+)/g` in the text is replaced by
    the named file's contents inside a Markdown code fence. If any file cannot
    be read, the filter gives back the text it was handed, untouched.

    The file system is a map from path to contents (a missing path is a read
    that throws), and `path.join` is a parameter. */
module IncludeCode {
  import opened Wrappers
  import opened Text

  /** The directive's fixed part; the file name follows it. */
  const Marker: string := "#includeCode:"

  /** Files readable by the filter, by joined path. */
  type FileSystem = map<string, string>

  /** `path.join(directory, file)`. */
  type PathJoin = (string, string) -> string

  /** The characters a regular-expression `.` does not match. */
  predicate IsLineTerminator(c: char)
  {
    c == '\n' || c == '\r' || c == '\U{2028}' || c == '\U{2029}'
  }

  /** What a greedy `.+` consumes: the longest prefix with no line terminator. */
  function RestOfLine(s: string): (r: string)
    ensures StartsWith(s, r)
    ensures forall i :: 0 <= i < |r| ==> !IsLineTerminator(r[i])
    ensures |r| == |s| || IsLineTerminator(s[|r|])
  {
    if s == [] || IsLineTerminator(s[0]) then [] else [s[0]] + RestOfLine(s[1..])
  }

  /** The regular expression matches at position `i` of `s`: the marker,
      then at least one character of the same line. */
  predicate DirectiveAt(s: string, i: int)
  {
    0 <= i && i + |Marker| < |s| && StartsWith(s[i..], Marker) && !IsLineTerminator(s[i + |Marker|])
  }

  /** The regular expression matches nowhere in `s`. */
  predicate NoDirective(s: string)
  {
    forall i :: 0 <= i < |s| ==> !DirectiveAt(s, i)
  }

  /** The replacement text for one directive. */
  function Fence(contents: string): string
  {
    "```\n" + contents + "\n```"
  }

  /** `prefix` in front of a replacement result; a failed read stays failed. */
  function Prepend(prefix: string, r: Option<string>): Option<string>
  {
    match r
    case None => None
    case Some(rest) => Some(prefix + rest)
  }

  /** The file names of the directives, in the order the regular-expression
      engine finds them (a match runs to the end of its line, so a marker
      inside a file name is not a directive of its own). */
  function Directives(s: string): (files: seq<string>)
    ensures forall k :: 0 <= k < |files| ==> files[k] != []
  {
    if s == [] then []
    else if DirectiveAt(s, 0) then
      var file := RestOfLine(s[|Marker|..]);
      [file] + Directives(s[|Marker| + |file|..])
    else Directives(s[1..])
  }

  /** Every directive's file can be read. */
  predicate AllReadable(dir: string, join: PathJoin, fs: FileSystem, files: seq<string>)
  {
    forall k :: 0 <= k < |files| ==> join(dir, files[k]) in fs
  }

  /** `text.replace(/#includeCode:(.+)/g, ...)`: scan left to right; a match
      is replaced by the fenced file contents and the scan resumes after it,
      any other character is kept. `None` stands for the exception thrown by
      a failed read, which abandons the whole replacement. */
  function Expand(s: string, dir: string, join: PathJoin, fs: FileSystem): (r: Option<string>)
    ensures r.None? ==> Directives(s) != []
  {
    if s == [] then Some([])
    else if DirectiveAt(s, 0) then
      var file := RestOfLine(s[|Marker|..]);
      var path := join(dir, file);
      if path !in fs then None
      else Prepend(Fence(fs[path]), Expand(s[|Marker| + |file|..], dir, join, fs))
    else Prepend([s[0]], Expand(s[1..], dir, join, fs))
  }

  /** The filter, bound to the directory of the source file. `value` is
      `None` for `undefined` (and the other falsy values), which `value || ''`
      turns into the empty string; the empty string holds no directive. */
  function IncludeCodeFilter(dir: string, join: PathJoin, fs: FileSystem, value: Option<string>): (r: string)
    ensures value == None ==> r == ""
    ensures value.Some? && !AllReadable(dir, join, fs, Directives(value.value)) ==> r == value.value
    ensures value.Some? && NoDirective(value.value) ==> r == value.value
    ensures value.Some? && AllReadable(dir, join, fs, Directives(value.value)) ==>
      Expand(value.value, dir, join, fs) == Some(r)
  {
    match value
    case None => ""
    case Some(v) =>
      ExpandFailsIffUnreadable(v, dir, join, fs);
      assert NoDirective(v) ==> Expand(v, dir, join, fs) == Some(v) by {
        if NoDirective(v) { ExpandPlain(v, dir, join, fs); }
      }
      match Expand(v, dir, join, fs)
      case Some(out) => out
      case None => v
  }

  /** Shifting a string by one character shifts its matches by one. */
  lemma DirectiveShift(s: string, i: int)
    requires s != [] && 0 <= i
    ensures DirectiveAt(s[1..], i) <==> DirectiveAt(s, i + 1)
  {
    if i <= |s[1..]| {
      assert s[1..][i..] == s[i + 1..];
    }
  }

  /** Text with no directive comes back unchanged and names no file. */
  lemma {:induction false} ExpandPlain(s: string, dir: string, join: PathJoin, fs: FileSystem)
    requires NoDirective(s)
    ensures Expand(s, dir, join, fs) == Some(s)
    ensures Directives(s) == []
  {
    if s != [] {
      assert !DirectiveAt(s, 0);
      forall i | 0 <= i < |s[1..]| ensures !DirectiveAt(s[1..], i) {
        DirectiveShift(s, i);
      }
      ExpandPlain(s[1..], dir, join, fs);
      assert [s[0]] + s[1..] == s;
    }
  }

  /** A read that fails anywhere abandons the whole replacement, and only
      then: the replacement fails exactly when some directive's file is
      unreadable. */
  lemma {:induction false} ExpandFailsIffUnreadable(s: string, dir: string, join: PathJoin, fs: FileSystem)
    ensures Expand(s, dir, join, fs).None? <==> !AllReadable(dir, join, fs, Directives(s))
    decreases |s|
  {
    if s != [] {
      if DirectiveAt(s, 0) {
        var file := RestOfLine(s[|Marker|..]);
        var rest := s[|Marker| + |file|..];
        ExpandFailsIffUnreadable(rest, dir, join, fs);
        var ds := Directives(s);
        assert ds == [file] + Directives(rest);
        if join(dir, file) in fs && !AllReadable(dir, join, fs, Directives(rest)) {
          var k :| 0 <= k < |Directives(rest)| && join(dir, Directives(rest)[k]) !in fs;
          assert ds[k + 1] == Directives(rest)[k];
        }
        if AllReadable(dir, join, fs, ds) {
          assert join(dir, ds[0]) in fs;
          forall k | 0 <= k < |Directives(rest)| ensures join(dir, Directives(rest)[k]) in fs {
            assert ds[k + 1] == Directives(rest)[k];
          }
        }
      } else {
        ExpandFailsIffUnreadable(s[1..], dir, join, fs);
      }
    }
  }

  /** The greedy file name of a directive stops at the end of its line. */
  lemma {:induction false} RestOfLineExact(file: string, post: string)
    requires forall i :: 0 <= i < |file| ==> !IsLineTerminator(file[i])
    requires post == [] || IsLineTerminator(post[0])
    ensures RestOfLine(file + post) == file
  {
    if file != [] {
      assert (file + post)[1..] == file[1..] + post;
      RestOfLineExact(file[1..], post);
    }
  }

  /** A text that starts with a directive: the match takes the rest of the line. */
  lemma ExpandAtDirective(file: string, post: string, dir: string, join: PathJoin, fs: FileSystem)
    requires file != [] && forall i :: 0 <= i < |file| ==> !IsLineTerminator(file[i])
    requires post == [] || IsLineTerminator(post[0])
    ensures Directives(Marker + file + post) == [file] + Directives(post)
    ensures Expand(Marker + file + post, dir, join, fs) ==
      if join(dir, file) in fs then Prepend(Fence(fs[join(dir, file)]), Expand(post, dir, join, fs))
      else None
  {
    var s := Marker + file + post;
    assert s[|Marker|..] == file + post;
    assert DirectiveAt(s, 0) by { assert s[|Marker|] == file[0]; }
    RestOfLineExact(file, post);
    assert s[|Marker| + |file|..] == post;
  }

  /** Text before the first directive is copied as it is. */
  lemma {:induction false} ExpandPlainPrefix(pre: string, t: string, dir: string, join: PathJoin, fs: FileSystem)
    requires NoDirective(pre + Marker)
    requires StartsWith(t, Marker)
    ensures Directives(pre + t) == Directives(t)
    ensures Expand(pre + t, dir, join, fs) == Prepend(pre, Expand(t, dir, join, fs))
  {
    if pre == [] {
      assert pre + t == t;
      match Expand(t, dir, join, fs)
      case None =>
      case Some(rest) => assert pre + rest == rest;
    } else {
      var s := pre + t;
      NoDirectiveBeforeMarker(pre, t);
      assert s[1..] == pre[1..] + t;
      NoDirectiveTail(pre);
      ExpandPlainPrefix(pre[1..], t, dir, join, fs);
      PrependTwice([pre[0]], pre[1..], Expand(t, dir, join, fs));
      assert [pre[0]] + pre[1..] == pre;
    }
  }

  /** A match at the start of `pre + t` would be a match at the start of
      `pre + Marker`, when `t` starts with the marker. */
  lemma NoDirectiveBeforeMarker(pre: string, t: string)
    requires pre != [] && NoDirective(pre + Marker)
    requires StartsWith(t, Marker)
    ensures !DirectiveAt(pre + t, 0)
  {
    var s := pre + t;
    assert !DirectiveAt(pre + Marker, 0);
    assert t[..|Marker|] == Marker;
    assert s[..|Marker|] == (pre + Marker)[..|Marker|];
    assert s[|Marker|] == (pre + Marker)[|Marker|];
    assert s[0..] == s && (pre + Marker)[0..] == pre + Marker;
  }

  lemma NoDirectiveTail(pre: string)
    requires pre != [] && NoDirective(pre + Marker)
    ensures NoDirective(pre[1..] + Marker)
  {
    assert (pre + Marker)[1..] == pre[1..] + Marker;
    forall i | 0 <= i < |pre[1..] + Marker| ensures !DirectiveAt(pre[1..] + Marker, i) {
      DirectiveShift(pre + Marker, i);
    }
  }

  /** The first directive of a text: everything before it is kept, the
      directive `#includeCode:FILE` (FILE being the rest of its line) becomes
      the fenced contents of `join(dir, FILE)`, and the scan goes on after the
      line's end. `NoDirective(pre + Marker)` says no match starts in `pre`. */
  lemma ExpandFirstDirective(pre: string, file: string, post: string,
                             dir: string, join: PathJoin, fs: FileSystem)
    requires NoDirective(pre + Marker)
    requires file != [] && forall i :: 0 <= i < |file| ==> !IsLineTerminator(file[i])
    requires post == [] || IsLineTerminator(post[0])
    ensures Directives(pre + Marker + file + post) == [file] + Directives(post)
    ensures Expand(pre + Marker + file + post, dir, join, fs) ==
      if join(dir, file) in fs then Prepend(pre + Fence(fs[join(dir, file)]), Expand(post, dir, join, fs))
      else None
  {
    var t := Marker + file + post;
    assert pre + Marker + file + post == pre + t;
    ExpandAtDirective(file, post, dir, join, fs);
    ExpandPlainPrefix(pre, t, dir, join, fs);
    if join(dir, file) in fs {
      PrependTwice(pre, Fence(fs[join(dir, file)]), Expand(post, dir, join, fs));
    }
  }

  lemma PrependTwice(a: string, b: string, r: Option<string>)
    ensures Prepend(a, Prepend(b, r)) == Prepend(a + b, r)
  {
    if r.Some? {
      assert a + (b + r.value) == a + b + r.value;
    }
  }

  /** A directive naming `foo.txt`, which holds `hello`, becomes a fence
      around exactly `hello`. */
  lemma IncludeCodeFooTxt(dir: string, join: PathJoin)
    ensures IncludeCodeFilter(dir, join, map[join(dir, "foo.txt") := "hello"], Some("#includeCode:foo.txt"))
      == Fence("hello")
  {
    var text := "#includeCode:foo.txt";
    var found: FileSystem := map[join(dir, "foo.txt") := "hello"];
    assert Marker + "foo.txt" + [] == text;
    ExpandAtDirective("foo.txt", [], dir, join, found);
    assert Expand([], dir, join, found) == Some([]);
    assert Expand(text, dir, join, found) == Prepend(Fence("hello"), Expand([], dir, join, found));
    assert Fence("hello") + [] == Fence("hello");
    assert Expand(text, dir, join, found) == Some(Fence("hello"));
  }

  /** The same directive with `foo.txt` missing leaves the text as it was. */
  lemma IncludeCodeMissingFile(dir: string, join: PathJoin)
    ensures IncludeCodeFilter(dir, join, map[], Some("#includeCode:foo.txt")) == "#includeCode:foo.txt"
  {
  }
}
