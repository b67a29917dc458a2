/**
 * Storage helpers of the Deno monitor (deno/willhappen/helpers/file.ts) and the
 * file store they act on.
 *
 * The file system is a map from path to the JSON document stored there. A document
 * is either well-formed (`Json`) or one that `JSON.parse` rejects (`Malformed`).
 * Serialisation itself is not modelled: writing `v` stores `Json(v)`.
 */
module FileHelpers {

  /** What a path holds: a parsed JSON value, or text that does not parse. */
  datatype Content<T> = Json(value: T) | Malformed

  /** The file system as seen by one process; `files` is updated in place by writes. */
  class FileSystem<T> {
    var files: map<string, Content<T>>

    constructor (initial: map<string, Content<T>>)
      ensures files == initial
    {
      files := initial;
    }

    /**
     * `Deno.writeTextFile` / `fs.writeFile` inside a try/catch that only logs.
     * `succeeds` is the file system's answer; on failure nothing changes and no
     * error reaches the caller.
     */
    method Write(path: string, value: T, succeeds: bool)
      modifies this
      ensures succeeds ==> files == old(files)[path := Json(value)]
      ensures !succeeds ==> files == old(files)
    {
      if succeeds {
        files := files[path := Json(value)];
      }
    }
  }

  /** The list a read yields: a missing or unparsable file degrades to the empty list. */
  function Load<X>(files: map<string, Content<seq<X>>>, path: string): (items: seq<X>)
    ensures path !in files || files[path].Malformed? ==> items == []
    ensures path in files && files[path].Json? ==> items == files[path].value
    ensures items != [] ==> path in files && files[path] == Json(items)
  {
    if path in files && files[path].Json? then files[path].value else []
  }

  /**
   * `readAppartmentsFromFile` (and `readHeadlinesFromFile` of vibe.ts, the same
   * code for headlines): never fails; a missing file and any read or parse error
   * both give the empty list.
   */
  method ReadItems<X>(fs: FileSystem<seq<X>>, path: string) returns (items: seq<X>)
    ensures path !in fs.files ==> items == []
    ensures path in fs.files && fs.files[path].Malformed? ==> items == []
    ensures path in fs.files && fs.files[path].Json? ==> items == fs.files[path].value
    ensures items == Load(fs.files, path)
  {
    if path !in fs.files {
      return [];  // Deno.errors.NotFound
    }
    match fs.files[path]
    case Malformed =>
      items := [];  // any other error is logged and swallowed
    case Json(v) =>
      items := v;
  }

  /** A successful write followed by a read gives back exactly what was written. */
  lemma WriteThenLoad<X>(files: map<string, Content<seq<X>>>, path: string, items: seq<X>)
    ensures Load(files[path := Json(items)], path) == items
  {
  }

  // ---------------------------------------------------------------------------
  // File names: `name.toLowerCase().replace(/\s+/g, "-")`
  // ---------------------------------------------------------------------------

  /** The characters of JavaScript's regular-expression class `\s`, by code point. */
  predicate IsWhitespace(c: char)
  {
    var n := c as int;
    (9 <= n <= 13) || n == 32 || n == 0xA0 || n == 0x1680 || (0x2000 <= n <= 0x200A)
    || n == 0x2028 || n == 0x2029 || n == 0x202F || n == 0x205F || n == 0x3000 || n == 0xFEFF
  }

  predicate IsUpper(c: char)
  {
    'A' <= c <= 'Z'
  }

  predicate NoWhitespace(s: string)
  {
    forall i :: 0 <= i < |s| ==> !IsWhitespace(s[i])
  }

  predicate NoUpper(s: string)
  {
    forall i :: 0 <= i < |s| ==> !IsUpper(s[i])
  }

  function LowerChar(c: char): char
  {
    if IsUpper(c) then (c as int + 32) as char else c
  }

  /** `toLowerCase` restricted to the ASCII letters. */
  function ToLowerAscii(s: string): (r: string)
    ensures |r| == |s|
    ensures NoUpper(r)
    ensures forall i :: 0 <= i < |s| && !IsUpper(s[i]) ==> r[i] == s[i]
    ensures forall i :: 0 <= i < |s| && IsUpper(s[i]) ==> r[i] as int == s[i] as int + 32
  {
    seq(|s|, i requires 0 <= i < |s| => LowerChar(s[i]))
  }

  // The run replacement is stated for any character class `sep`; the file names
  // use it with `IsWhitespace`, the class `\s` of the pattern `/\s+/g`.

  predicate NoneIn(s: string, sep: char -> bool)
  {
    forall i :: 0 <= i < |s| ==> !sep(s[i])
  }

  predicate AllIn(s: string, sep: char -> bool)
  {
    forall i :: 0 <= i < |s| ==> sep(s[i])
  }

  /** What the replacement emits for the first character of `s`. */
  function EmitFirst(s: string, sep: char -> bool): string
    requires s != []
  {
    if !sep(s[0]) then [s[0]]
    else if |s| > 1 && sep(s[1]) then []  // the run goes on
    else "-"                               // the last character of a run
  }

  /**
   * `replace(/<sep>+/g, "-")`: every maximal run of `sep` characters becomes one
   * "-", written where the run ends; every other character is kept.
   */
  function ReplaceRuns(s: string, sep: char -> bool): (r: string)
    ensures |r| <= |s|
    ensures r == [] <==> s == []
  {
    if s == [] then [] else EmitFirst(s, sep) + ReplaceRuns(s[1..], sep)
  }

  /** The replacement leaves no `sep` character and introduces no upper-case letter. */
  lemma {:induction false} ReplaceRunsLeavesNone(s: string, sep: char -> bool)
    requires !sep('-')
    ensures NoneIn(ReplaceRuns(s, sep), sep)
    ensures NoUpper(s) ==> NoUpper(ReplaceRuns(s, sep))
  {
    if s != [] {
      ReplaceRunsLeavesNone(s[1..], sep);
    }
  }

  /** The name part of a generated storage file name. */
  function Slug(name: string): (r: string)
    ensures NoWhitespace(r) && NoUpper(r)
  {
    ReplaceRunsLeavesNone(ToLowerAscii(name), IsWhitespace);
    ReplaceRuns(ToLowerAscii(name), IsWhitespace)
  }

  /** A string without `sep` characters passes through the replacement unchanged. */
  lemma {:induction false} ReplaceRunsWithoutRuns(s: string, sep: char -> bool)
    requires NoneIn(s, sep)
    ensures ReplaceRuns(s, sep) == s
  {
    if s != [] {
      ReplaceRunsWithoutRuns(s[1..], sep);
    }
  }

  /** A name already in slug form is its own slug. */
  lemma SlugOfSlug(name: string)
    requires NoWhitespace(name) && NoUpper(name)
    ensures Slug(name) == name
  {
    assert ToLowerAscii(name) == name;
    ReplaceRunsWithoutRuns(name, IsWhitespace);
  }

  /** A non-empty run of `sep` characters becomes exactly one "-". */
  lemma {:induction false} RunIsOneDash(w: string, sep: char -> bool)
    requires |w| > 0 && AllIn(w, sep)
    ensures ReplaceRuns(w, sep) == "-"
  {
    if |w| > 1 {
      RunIsOneDash(w[1..], sep);
    }
  }

  /**
   * The replacement works run by run: it commutes with concatenation at any point
   * that does not fall inside a run.
   */
  lemma {:induction false} ReplaceSplits(x: string, y: string, sep: char -> bool)
    requires x == [] || y == [] || !(sep(x[|x| - 1]) && sep(y[0]))
    ensures ReplaceRuns(x + y, sep) == ReplaceRuns(x, sep) + ReplaceRuns(y, sep)
    decreases |x|
  {
    if x == [] {
      assert x + y == y;
    } else {
      var xy := x + y;
      assert EmitFirst(xy, sep) == EmitFirst(x, sep) by {
        assert xy[0] == x[0];
        if |x| > 1 {
          assert xy[1] == x[1];
        } else if y != [] {
          assert xy[1] == y[0];
        }
      }
      assert xy[1..] == x[1..] + y;
      ReplaceSplits(x[1..], y, sep);
      var ex, rx, ry := EmitFirst(x, sep), ReplaceRuns(x[1..], sep), ReplaceRuns(y, sep);
      assert ex + (rx + ry) == ex + rx + ry;
    }
  }

  /** A run followed by a string that does not continue it: one "-", then the rest. */
  lemma RunThenRest(w: string, b: string, sep: char -> bool)
    requires |w| > 0 && AllIn(w, sep)
    requires b == [] || !sep(b[0])
    ensures ReplaceRuns(w + b, sep) == "-" + ReplaceRuns(b, sep)
  {
    ReplaceSplits(w, b, sep);
    RunIsOneDash(w, sep);
  }

  /** Each maximal run becomes exactly one "-". */
  lemma EachRunBecomesOneDash(a: string, w: string, b: string, sep: char -> bool)
    requires a == [] || !sep(a[|a| - 1])
    requires |w| > 0 && AllIn(w, sep)
    requires b == [] || !sep(b[0])
    ensures ReplaceRuns(a + (w + b), sep) == ReplaceRuns(a, sep) + ("-" + ReplaceRuns(b, sep))
  {
    RunThenRest(w, b, sep);
    assert (w + b)[0] == w[0];
    ReplaceSplits(a, w + b, sep);
  }

  const ApartmentsSuffix: string := "-appartmetns.json"

  /**
   * `generateStorageFilePath(name, storageDirectory)` of file.ts: the directory,
   * a "/", the slug of the name and the literal suffix "-appartmetns.json".
   */
  function GenerateStorageFilePath(name: string, storageDirectory: string): (path: string)
    ensures |path| == |storageDirectory| + 1 + |Slug(name)| + |ApartmentsSuffix|
    ensures path[..|storageDirectory| + 1] == storageDirectory + "/"
    ensures path[|path| - |ApartmentsSuffix|..] == ApartmentsSuffix
    ensures var stem := path[|storageDirectory| + 1..|path| - |ApartmentsSuffix|];
      stem == Slug(name) && NoWhitespace(stem) && NoUpper(stem)
  {
    storageDirectory + "/" + Slug(name) + ApartmentsSuffix
  }
}
