/**
 * The static file server of the desktop shell and the choice of the UI address.
 *
 * Paths are absolute and modelled by their segments: `["srv", "next", "out"]` is
 * "/srv/next/out". `path.resolve` and `path.join` are segment normalisation ("." and empty
 * segments dropped, ".." removing the previous segment). URL parsing, percent-decoding and the
 * file system are inputs: the handler receives the request's pathname, a decoder that may fail,
 * and oracles telling whether a path is a regular file and whether it can be read.
 */
module StaticServer {
  import opened Wrappers
  import opened JsValues

  const DEFAULT_CONTENT_TYPE := "application/octet-stream"
  const DEV_URL := "http://localhost:3000"
  const INDEX := "index.html"

  /** The `mimeTypes` table, keyed by lower-case extension. */
  const MIME_TYPES: map<string, string> := map[
    ".html" := "text/html",
    ".js" := "text/javascript",
    ".css" := "text/css",
    ".json" := "application/json",
    ".png" := "image/png",
    ".jpg" := "image/jpeg",
    ".jpeg" := "image/jpeg",
    ".svg" := "image/svg+xml",
    ".ico" := "image/x-icon",
    ".woff" := "font/woff",
    ".woff2" := "font/woff2",
    ".ttf" := "font/ttf"
  ]

  // ---- paths as segments ----

  /** A segment of a normalised path: non-empty, no separator, and not a dot segment. */
  predicate ProperSegment(x: string) {
    x != "" && '/' !in x && x != "." && x != ".."
  }

  predicate Proper(segs: seq<string>) {
    forall i :: 0 <= i < |segs| ==> ProperSegment(segs[i])
  }

  /** "/a/b" for `["a", "b"]`, and "" for no segments. */
  function Render(segs: seq<string>): (s: string)
    ensures segs == [] <==> s == ""
    ensures s != "" ==> s[0] == '/'
    decreases |segs|
  {
    if segs == [] then "" else "/" + segs[0] + Render(segs[1..])
  }

  /** The absolute path of `segs`, "/" for the file-system root. */
  function PathOf(segs: seq<string>): string {
    if segs == [] then "/" else Render(segs)
  }

  /** Normalise the pieces of a path, starting from the directory `base`. */
  function Normalize(base: seq<string>, parts: seq<string>): (segs: seq<string>)
    requires Proper(base)
    requires forall i :: 0 <= i < |parts| ==> '/' !in parts[i]
    ensures Proper(segs)
    decreases |parts|
  {
    if parts == [] then base
    else
      var p := parts[0];
      var next := if p == "" || p == "." then base
        else if p == ".." then (if base == [] then [] else base[..|base| - 1])
        else base + [p];
      Normalize(next, parts[1..])
  }

  /** `path.resolve(root, p)`: an absolute `p` starts again from the file-system root. */
  function Resolve(root: seq<string>, p: string): (segs: seq<string>)
    requires Proper(root)
    ensures Proper(segs)
    ensures p == "." ==> segs == root
    ensures ProperSegment(p) ==> segs == root + [p]
  {
    var base := if p != "" && p[0] == '/' then [] else root;
    var parts := Split(p, '/');
    if '/' in p then Normalize(base, parts)
    else
      SplitWithoutSeparator(p, '/');
      assert base == root && parts == [p] && parts[1..] == [];
      assert p == "." ==> Normalize(base, parts) == Normalize(root, []);
      assert ProperSegment(p) ==> Normalize(base, parts) == Normalize(root + [p], []);
      Normalize(base, parts)
  }

  /** `path.join(root, p)`: `p` is appended even when it starts with a separator. */
  function JoinPath(root: seq<string>, p: string): (r: seq<string>)
    requires Proper(root)
    ensures Proper(r)
    ensures (p == "" || p[0] != '/') ==> r == Resolve(root, if p == "" then "." else p)
  {
    if p == "" then
      SplitWithoutSeparator("", '/');
      SplitWithoutSeparator(".", '/');
      Normalize(root, Split(p, '/'))
    else
      Normalize(root, Split(p, '/'))
  }

  /** `pathname.replace(/^\/+/, '')`. */
  function StripLeadingSlashes(s: string): (t: string)
    ensures t == [] || t[0] != '/'
    ensures EndsWith(s, t) && forall i :: 0 <= i < |s| - |t| ==> s[i] == '/'
    decreases |s|
  {
    if s != [] && s[0] == '/' then StripLeadingSlashes(s[1..]) else s
  }

  // ---- the containment check ----

  /** The check as the source writes it: a plain string-prefix test. */
  predicate StartsWithRoot(resolved: string, root: string): (b: bool)
    ensures b <==> exists rest :: resolved == root + rest
  {
    assert StartsWith(resolved, root) ==> resolved == root + resolved[|root|..];
    StartsWith(resolved, root)
  }

  /** The check as intended: the path is the root itself or lies below it. */
  predicate WithinRoot(resolved: string, root: string) {
    resolved == root || StartsWith(resolved, root + "/")
  }

  predicate IsPrefix(rs: seq<string>, xs: seq<string>) {
    |rs| <= |xs| && xs[..|rs|] == rs
  }

  lemma StartsWithTail(c: char, p: string, q: string)
    ensures StartsWith([c] + p, [c] + q) <==> StartsWith(p, q)
  {
    if StartsWith(p, q) {
      assert ([c] + p)[..|q| + 1] == [c] + p[..|q|];
    }
    if StartsWith([c] + p, [c] + q) {
      assert p[..|q|] == ([c] + p)[1..|q| + 1];
    }
  }

  lemma CharAt(x: string, a: string, i: int)
    ensures 0 <= i < |x| ==> (x + a)[i] == x[i]
    ensures |x| <= i < |x| + |a| ==> (x + a)[i] == a[i - |x|]
  {
  }

  lemma PrefixChar(s: string, u: string, i: int)
    ensures StartsWith(s, u) && 0 <= i < |u| ==> s[i] == u[i]
  {
    if StartsWith(s, u) && 0 <= i < |u| {
      assert s[..|u|][i] == s[i];
    }
  }

  /**
   * Two segment names followed by separator-led rests: the one string extends the other
   * exactly when the names agree and the rests do.
   */
  lemma HeadStartsWith(x: string, a: string, r: string, t: string)
    requires '/' !in x && '/' !in r && x != "" && r != ""
    requires a == [] || a[0] == '/'
    requires t != [] && t[0] == '/'
    ensures StartsWith(x + a, r + t) <==> x == r && StartsWith(a, t)
  {
    var s, u := x + a, r + t;
    if StartsWith(s, u) {
      CharAt(x, a, |x|);
      CharAt(r, t, |x|);
      CharAt(x, a, |r|);
      CharAt(r, t, |r|);
      PrefixChar(s, u, |x|);
      PrefixChar(s, u, |r|);
      assert |x| == |r|;
      assert x == s[..|x|] == u[..|r|] == r;
      assert a[..|t|] == s[|x|..|x| + |t|];
    }
    if x == r && StartsWith(a, t) {
      assert s[..|u|] == x + a[..|t|];
    }
  }

  lemma HeadEqual(x: string, a: string, r: string, b: string)
    requires '/' !in x && '/' !in r && x != "" && r != ""
    requires a == [] || a[0] == '/'
    requires b == [] || b[0] == '/'
    ensures x + a == r + b <==> x == r && a == b
  {
    var s, u := x + a, r + b;
    if s == u {
      CharAt(x, a, |x|);
      CharAt(r, b, |x|);
      CharAt(x, a, |r|);
      CharAt(r, b, |r|);
      assert |x| == |r|;
      assert x == s[..|x|] && r == u[..|r|];
      assert a == s[|x|..] && b == u[|r|..];
    }
  }

  /** Rendered paths: one lies within the other exactly when its segments extend the other's. */
  lemma {:induction false} RenderWithin(xs: seq<string>, rs: seq<string>)
    requires Proper(xs) && Proper(rs)
    ensures Render(xs) == Render(rs) || StartsWith(Render(xs), Render(rs) + "/") <==> IsPrefix(rs, xs)
    decreases |rs|
  {
    if rs == [] {
      assert Render(rs) + "/" == "/";
      if xs != [] {
        assert Render(xs)[..1] == "/";
      }
      assert xs[..0] == rs;
    } else if xs == [] {
      assert !StartsWith("", Render(rs) + "/");
    } else {
      ProperTail(xs);
      ProperTail(rs);
      RenderWithin(xs[1..], rs[1..]);
      RenderedEqualIff(xs, rs);
      RenderedStartsIff(xs, rs);
      IsPrefixCons(xs, rs);
    }
  }

  lemma ProperTail(xs: seq<string>)
    requires Proper(xs) && xs != []
    ensures Proper(xs[1..]) && ProperSegment(xs[0])
  {
    assert forall i :: 0 <= i < |xs| - 1 ==> xs[1..][i] == xs[i + 1];
  }

  lemma RenderCons(xs: seq<string>)
    requires xs != []
    ensures Render(xs) == ['/'] + (xs[0] + Render(xs[1..]))
  {
  }

  lemma RenderedEqualIff(xs: seq<string>, rs: seq<string>)
    requires Proper(xs) && Proper(rs) && xs != [] && rs != []
    ensures Render(xs) == Render(rs) <==> xs[0] == rs[0] && Render(xs[1..]) == Render(rs[1..])
  {
    ProperTail(xs);
    ProperTail(rs);
    var x, r := xs[0], rs[0];
    var a, b := Render(xs[1..]), Render(rs[1..]);
    RenderCons(xs);
    RenderCons(rs);
    HeadEqual(x, a, r, b);
    if Render(xs) == Render(rs) {
      assert x + a == Render(xs)[1..] == Render(rs)[1..] == r + b;
    }
  }

  lemma RenderedStartsIff(xs: seq<string>, rs: seq<string>)
    requires Proper(xs) && Proper(rs) && xs != [] && rs != []
    ensures StartsWith(Render(xs), Render(rs) + "/") <==>
      xs[0] == rs[0] && StartsWith(Render(xs[1..]), Render(rs[1..]) + "/")
  {
    ProperTail(xs);
    ProperTail(rs);
    var x, r := xs[0], rs[0];
    var a, b := Render(xs[1..]), Render(rs[1..]);
    RenderCons(xs);
    RenderCons(rs);
    assert Render(rs) + "/" == ['/'] + (r + (b + "/"));
    StartsWithTail('/', x + a, r + (b + "/"));
    HeadStartsWith(x, a, r, b + "/");
  }

  lemma IsPrefixCons(xs: seq<string>, rs: seq<string>)
    requires xs != [] && rs != []
    ensures IsPrefix(rs, xs) <==> xs[0] == rs[0] && IsPrefix(rs[1..], xs[1..])
  {
    if IsPrefix(rs[1..], xs[1..]) && xs[0] == rs[0] {
      assert xs[..|rs|] == [xs[0]] + xs[1..][..|rs| - 1];
      assert rs == [rs[0]] + rs[1..];
    }
    if IsPrefix(rs, xs) {
      assert xs[1..][..|rs| - 1] == xs[..|rs|][1..];
    }
  }

  /**
   * The intended check is exact: a normalised path passes it exactly when its segments start
   * with the root's segments, i.e. when it names the root directory or something inside it.
   */
  lemma WithinRootIffInside(xs: seq<string>, rs: seq<string>)
    requires Proper(xs) && Proper(rs) && rs != []
    ensures WithinRoot(PathOf(xs), Render(rs)) <==> IsPrefix(rs, xs)
  {
    RenderWithin(xs, rs);
    if xs == [] {
      assert |Render(rs)| >= 2 by {
        assert Render(rs) == "/" + rs[0] + Render(rs[1..]);
      }
    }
  }

  /** The intended check never admits more than the written one. */
  lemma WithinRootImpliesStartsWithRoot(resolved: string, root: string)
    requires WithinRoot(resolved, root)
    ensures StartsWithRoot(resolved, root)
  {
    if resolved != root {
      assert resolved[..|root|] == (root + "/")[..|root|];
    }
  }

  lemma {:induction false} RenderAppend(a: seq<string>, b: seq<string>)
    ensures Render(a + b) == Render(a) + Render(b)
    decreases |a|
  {
    if a == [] {
      assert a + b == b;
    } else {
      assert (a + b)[1..] == a[1..] + b;
      RenderAppend(a[1..], b);
    }
  }

  /** A non-empty sequence is its front followed by its last element. */
  lemma InitLast(s: seq<string>)
    requires s != []
    ensures s == s[..|s| - 1] + [s[|s| - 1]]
  {
  }

  lemma SiblingSplit(sibling: string, file: string)
    requires '/' !in sibling && '/' !in file
    ensures Split("../" + sibling + "/" + file, '/') == ["..", sibling, file]
  {
    assert "../" + sibling + "/" + file == ".." + ['/'] + (sibling + ['/'] + file);
    SplitWithoutSeparator(file, '/');
    SplitAtSeparator(sibling, '/', file);
    SplitAtSeparator("..", '/', sibling + ['/'] + file);
  }

  lemma SiblingResolve(rs: seq<string>, sibling: string, file: string)
    requires Proper(rs) && rs != [] && ProperSegment(sibling) && ProperSegment(file)
    ensures Resolve(rs, "../" + sibling + "/" + file) == rs[..|rs| - 1] + [sibling, file]
  {
    var p := "../" + sibling + "/" + file;
    SiblingSplit(sibling, file);
    assert p[0] == '.';
    var init := rs[..|rs| - 1];
    assert Proper(init) by {
      assert forall i :: 0 <= i < |init| ==> init[i] == rs[i];
    }
    var parts := ["..", sibling, file];
    assert parts[1..] == [sibling, file] && parts[1..][1..] == [file] && parts[1..][1..][1..] == [];
    assert Normalize(rs, parts) == Normalize(init, [sibling, file]);
    assert Normalize(init, [sibling, file]) == Normalize(init + [sibling], [file]);
    assert Normalize(init + [sibling], [file]) == Normalize(init + [sibling] + [file], []);
    assert init + [sibling] + [file] == init + [sibling, file];
  }

  lemma SiblingRendered(init: seq<string>, last: string, suffix: string, file: string)
    ensures PathOf(init + [last + suffix, file]) == Render(init + [last]) + (suffix + "/" + file)
  {
    RenderAppend(init, [last]);
    RenderAppend(init, [last + suffix, file]);
    RenderOne(last);
    RenderOne(file);
    assert [last + suffix, file][1..] == [file];
    assert Render([last + suffix, file]) == "/" + (last + suffix) + Render([file]);
  }

  /**
   * The written check admits a sibling directory whose name extends the root's last segment:
   * "../out-private/f" resolved against ".../out" is ".../out-private/f", which starts with the
   * root string without lying inside the root.
   */
  lemma SiblingPrefixAdmitted(rs: seq<string>, suffix: string, file: string)
    requires Proper(rs) && rs != []
    requires ProperSegment(rs[|rs| - 1] + suffix) && suffix != "" && ProperSegment(file)
    ensures var p := "../" + (rs[|rs| - 1] + suffix) + "/" + file;
      var xs := Resolve(rs, p);
      && xs == rs[..|rs| - 1] + [rs[|rs| - 1] + suffix, file]
      && StartsWithRoot(PathOf(xs), Render(rs))
      && !WithinRoot(PathOf(xs), Render(rs))
  {
    var init, last := rs[..|rs| - 1], rs[|rs| - 1];
    var sibling := last + suffix;
    SiblingResolve(rs, sibling, file);
    InitLast(rs);
    SiblingStarts(init, last, suffix, file);
    assert sibling != last by {
      assert |sibling| > |last|;
    }
    SiblingOutside(init, last, sibling, file);
  }

  lemma SiblingStarts(init: seq<string>, last: string, suffix: string, file: string)
    ensures StartsWithRoot(PathOf(init + [last + suffix, file]), Render(init + [last]))
  {
    SiblingRendered(init, last, suffix, file);
    var r := Render(init + [last]);
    assert PathOf(init + [last + suffix, file])[..|r|] == r;
  }

  lemma SiblingOutside(init: seq<string>, last: string, sibling: string, file: string)
    requires Proper(init + [last]) && ProperSegment(sibling) && ProperSegment(file) && sibling != last
    ensures !WithinRoot(PathOf(init + [sibling, file]), Render(init + [last]))
  {
    var xs, rs := init + [sibling, file], init + [last];
    assert Proper(xs) by {
      assert forall i :: 0 <= i < |init| ==> xs[i] == rs[i];
    }
    WithinRootIffInside(xs, rs);
    assert xs[..|rs|][|rs| - 1] == sibling;
  }

  // ---- extension and content type ----

  /** The index of the last `c` in `s`, or -1. */
  function LastIndexOf(s: string, c: char): (i: int)
    ensures -1 <= i < |s|
    ensures i >= 0 ==> s[i] == c && c !in s[i + 1..]
    ensures i == -1 ==> c !in s
    decreases |s|
  {
    if s == [] then -1
    else if s[|s| - 1] == c then |s| - 1
    else LastIndexOf(s[..|s| - 1], c)
  }

  /**
   * `path.extname` on a path without a trailing separator: from the last dot of the last
   * segment, unless that dot opens the segment or the segment is "..".
   */
  function Extname(p: string): (e: string)
    ensures e == "" || (e[0] == '.' && EndsWith(p, e) && '/' !in e && '.' !in e[1..])
  {
    var base := p[LastIndexOf(p, '/') + 1..];
    assert EndsWith(p, base);
    SegmentExtension(base)
  }

  /** The extension of one path segment. */
  function SegmentExtension(base: string): (e: string)
    ensures e == "" || (e[0] == '.' && EndsWith(base, e) && '.' !in e[1..])
    ensures '/' !in base ==> '/' !in e
  {
    var dot := LastIndexOf(base, '.');
    if dot <= 0 || base == ".." then "" else base[dot..]
  }

  function LowerChar(c: char): char {
    if 'A' <= c <= 'Z' then (c as int + 32) as char else c
  }

  /** ASCII lower-casing. */
  function Lower(s: string): (t: string)
    ensures |t| == |s| && forall i :: 0 <= i < |s| ==> t[i] == LowerChar(s[i])
  {
    seq(|s|, i requires 0 <= i < |s| => LowerChar(s[i]))
  }

  /** `mimeTypes[ext] || 'application/octet-stream'`. */
  function ContentType(ext: string): (t: string)
    ensures ext in MIME_TYPES ==> t == MIME_TYPES[ext]
    ensures ext !in MIME_TYPES ==> t == DEFAULT_CONTENT_TYPE
  {
    if ext in MIME_TYPES then MIME_TYPES[ext] else DEFAULT_CONTENT_TYPE
  }

  /**
   * The Content-Type the server sends for a file: the table's type for its lower-cased
   * extension, and the default exactly when that extension is not in the table.
   */
  function ContentTypeOf(file: string): (t: string)
    ensures t == DEFAULT_CONTENT_TYPE <==> Lower(Extname(file)) !in MIME_TYPES
    ensures t == DEFAULT_CONTENT_TYPE || t in MIME_TYPES.Values
  {
    assert DEFAULT_CONTENT_TYPE !in MIME_TYPES.Values;
    ContentType(Lower(Extname(file)))
  }

  lemma {:induction false} LastIndexAfter(pre: string, c: char, post: string)
    requires c !in post
    ensures LastIndexOf(pre + [c] + post, c) == |pre|
    decreases |post|
  {
    var t := pre + [c] + post;
    if post != [] {
      assert t[..|t| - 1] == pre + [c] + post[..|post| - 1];
      assert t[|t| - 1] == post[|post| - 1];
      LastIndexAfter(pre, c, post[..|post| - 1]);
    }
  }

  /** The last segment of `dir + "/" + name`, as `path.extname` sees it. */
  lemma BaseName(dir: string, name: string)
    requires '/' !in name
    ensures var p := dir + ['/'] + name; p[LastIndexOf(p, '/') + 1..] == name
  {
    LastIndexAfter(dir, '/', name);
  }

  /** The extension of `dir + "/" + name` is that of its last segment `name`. */
  lemma ExtnameOfSegment(dir: string, name: string)
    requires '/' !in name
    ensures Extname(dir + ['/'] + name) == SegmentExtension(name)
  {
    BaseName(dir, name);
  }

  /** A segment `stem.ext` has the extension `.ext`. */
  lemma ExtensionOf(stem: string, ext: string)
    requires '.' !in ext && stem != "" && ext != ""
    ensures SegmentExtension(stem + ['.'] + ext) == ['.'] + ext
  {
    var base := stem + ['.'] + ext;
    LastIndexAfter(stem, '.', ext);
    assert |base| >= 3;
    assert base[|stem|..] == ['.'] + ext;
  }

  lemma RenderOne(x: string)
    ensures Render([x]) == "/" + x
  {
    assert [x][1..] == [];
  }

  lemma PathOfAppend(dir: seq<string>, name: string)
    ensures PathOf(dir + [name]) == Render(dir) + ['/'] + name
  {
    RenderAppend(dir, [name]);
    RenderOne(name);
  }

  lemma IndexSegment()
    ensures SegmentExtension(INDEX) == ".html"
  {
    assert INDEX == "index" + ['.'] + "html";
    ExtensionOf("index", "html");
  }

  lemma IndexExtension(d: string)
    ensures Extname(d + ['/'] + INDEX) == ".html"
  {
    assert '/' !in INDEX;
    ExtnameOfSegment(d, INDEX);
    IndexSegment();
  }

  lemma NoExtension(d: string, name: string)
    requires '/' !in name && '.' !in name
    ensures Extname(d + ['/'] + name) == ""
    ensures Extname(d + ['/'] + ("." + name)) == ""
  {
    ExtnameOfSegment(d, name);
    assert '/' !in "." + name;
    ExtnameOfSegment(d, "." + name);
    NoExtensionSegments(name);
  }

  lemma NoExtensionSegments(name: string)
    requires '.' !in name
    ensures SegmentExtension(name) == "" && SegmentExtension("." + name) == ""
  {
    assert "." + name == "" + ['.'] + name;
    LastIndexAfter("", '.', name);
  }

  lemma ContentTypeByExtension(p: string, e: string)
    requires Extname(p) == e
    ensures ContentTypeOf(p) == ContentType(Lower(e))
  {
  }

  lemma HtmlType()
    ensures ContentType(Lower(".html")) == "text/html"
  {
    assert Lower(".html") == ".html";
  }

  lemma PngType()
    ensures ContentType(Lower(".PNG")) == "image/png"
  {
    assert Lower(".PNG") == ".png";
  }

  lemma NoType()
    ensures ContentType(Lower("")) == DEFAULT_CONTENT_TYPE
  {
    assert Lower("") == "";
  }

  /** A directory index is sent as HTML. */
  lemma IndexIsHtml(dir: seq<string>)
    ensures ContentTypeOf(PathOf(dir + [INDEX])) == "text/html"
  {
    PathOfAppend(dir, INDEX);
    IndexExtension(Render(dir));
    HtmlType();
  }

  /** Extensions are matched without regard to ASCII case. */
  lemma UpperCaseExtension(dir: string, stem: string)
    requires '/' !in stem && stem != ""
    ensures ContentTypeOf(dir + ['/'] + (stem + ".PNG")) == "image/png"
  {
    PngExtension(dir, stem);
    ContentTypeByExtension(dir + ['/'] + (stem + ".PNG"), ".PNG");
    PngType();
  }

  lemma PngExtension(dir: string, stem: string)
    requires '/' !in stem && stem != ""
    ensures Extname(dir + ['/'] + (stem + ".PNG")) == ".PNG"
  {
    assert '/' !in stem + ".PNG";
    ExtnameOfSegment(dir, stem + ".PNG");
    PngSegment(stem);
  }

  lemma PngSegment(stem: string)
    requires stem != ""
    ensures SegmentExtension(stem + ".PNG") == ".PNG"
  {
    assert stem + ".PNG" == stem + ['.'] + "PNG";
    ExtensionOf(stem, "PNG");
  }

  /** A file without an extension, or a dot-file, gets the default type. */
  lemma DotFileIsOctetStream(dir: seq<string>, name: string)
    requires ProperSegment(name) && '.' !in name
    ensures ContentTypeOf(PathOf(dir + [name])) == DEFAULT_CONTENT_TYPE
    ensures ContentTypeOf(PathOf(dir + ["." + name])) == DEFAULT_CONTENT_TYPE
  {
    PathOfAppend(dir, name);
    PathOfAppend(dir, "." + name);
    NoExtension(Render(dir), name);
    NoType();
  }

  // ---- the request handler ----

  datatype Response = Forbidden | NotFound | Served(file: string, contentType: string) | ServerError

  /** The candidate files, in the order they are probed. */
  function Candidates(root: seq<string>, pathname: string, safe: string): (c: seq<string>)
    requires Proper(root)
    ensures |c| == 3
    ensures var resolved := PathOf(Resolve(root, if safe == "" then "." else safe));
      if safe == "" || EndsWith(pathname, "/") then c[1..] == [resolved, resolved + ".html"]
      else c[..2] == [resolved, resolved + ".html"]
  {
    var resolved := PathOf(Resolve(root, if safe == "" then "." else safe));
    if safe == "" || EndsWith(pathname, "/") then
      [PathOf(JoinPath(root, safe) + [INDEX]), resolved, resolved + ".html"]
    else
      [resolved, resolved + ".html", PathOf(Resolve(root, safe) + [INDEX])]
  }

  /** The first candidate that is a regular file. */
  function FirstFile(c: seq<string>, isFile: string -> bool): (found: Option<string>)
    ensures found.None? <==> forall i :: 0 <= i < |c| ==> !isFile(c[i])
    ensures found.Some? ==>
      exists k :: 0 <= k < |c| && c[k] == found.value && isFile(c[k]) && (forall j :: 0 <= j < k ==> !isFile(c[j]))
    decreases |c|
  {
    if c == [] then None
    else if isFile(c[0]) then Some(c[0])
    else
      var rest := FirstFile(c[1..], isFile);
      if rest.Some? then
        ghost var k :| 0 <= k < |c| - 1 && c[1..][k] == rest.value && isFile(c[1..][k]) &&
          forall j :: 0 <= j < k ==> !isFile(c[1..][j]);
        assert c[k + 1] == rest.value && forall j :: 0 < j < k + 1 ==> !isFile(c[j]) by {
          forall j | 0 < j < k + 1 ensures !isFile(c[j]) {
            assert c[j] == c[1..][j - 1];
          }
        }
        rest
      else
        assert forall i :: 1 <= i < |c| ==> c[i] == c[1..][i - 1];
        rest
  }

  /**
   * The answer once the path has passed the containment check: 404 when no candidate is a
   * regular file, 500 when the first one cannot be read, and otherwise that file with the
   * Content-Type of its extension.
   */
  function Outcome(candidates: seq<string>, isFile: string -> bool, readable: string -> bool): (r: Response)
    ensures r != Forbidden
    ensures r == NotFound <==> forall i :: 0 <= i < |candidates| ==> !isFile(candidates[i])
    ensures r.Served? ==>
      && r.file in candidates && isFile(r.file) && readable(r.file)
      && r.contentType == ContentTypeOf(r.file)
      && r == Served(FirstFile(candidates, isFile).value, ContentTypeOf(FirstFile(candidates, isFile).value))
    ensures r == ServerError ==> FirstFile(candidates, isFile).Some? && !readable(FirstFile(candidates, isFile).value)
  {
    match FirstFile(candidates, isFile)
    case None => NotFound
    case Some(file) => if readable(file) then Served(file, ContentTypeOf(file)) else ServerError
  }

  /**
   * `probed` is what the loop examines of `candidates`: a non-empty prefix, every entry but the
   * last not a file, and either all of them or up to the first file.
   */
  predicate ProbedPrefix(probed: seq<string>, candidates: seq<string>, isFile: string -> bool) {
    && 0 < |probed| <= |candidates| && probed == candidates[..|probed|]
    && (forall j :: 0 <= j < |probed| - 1 ==> !isFile(probed[j]))
    && (FirstFile(candidates, isFile).None? ==> probed == candidates)
    && (FirstFile(candidates, isFile).Some? ==> probed[|probed| - 1] == FirstFile(candidates, isFile).value)
  }

  /** The containment test that guards the handler: as written, or as intended. */
  datatype Containment = AsWritten | Intended

  predicate Admits(c: Containment, resolved: string, root: string) {
    match c
    case AsWritten => StartsWithRoot(resolved, root)
    case Intended => WithinRoot(resolved, root)
  }

  /** The handler's answer to `pathname` when containment test `c` guards it. */
  function Answer(c: Containment, root: seq<string>, pathname: string, decode: string -> Option<string>,
                  isFile: string -> bool, readable: string -> bool): Response
    requires Proper(root)
  {
    match decode(StripLeadingSlashes(pathname))
    case None => ServerError
    case Some(safe) =>
      if !Admits(c, PathOf(Resolve(root, if safe == "" then "." else safe)), Render(root)) then Forbidden
      else Outcome(Candidates(root, pathname, safe), isFile, readable)
  }

  /**
   * The request handler of the static server, given the request's pathname. It answers 500 when
   * the pathname cannot be decoded and 403 exactly when the resolved path does not start with
   * the root string; otherwise it probes the candidates in order for the `Outcome`. `probed`
   * lists the candidates examined, in order.
   */
  method HandleRequest(root: seq<string>, pathname: string, decode: string -> Option<string>,
                       isFile: string -> bool, readable: string -> bool)
    returns (response: Response, probed: seq<string>)
    requires Proper(root)
    ensures response == Answer(AsWritten, root, pathname, decode, isFile, readable)
    ensures decode(StripLeadingSlashes(pathname)).None? ==> response == ServerError && probed == []
    ensures decode(StripLeadingSlashes(pathname)).Some? ==>
      var safe := decode(StripLeadingSlashes(pathname)).value;
      var resolved := PathOf(Resolve(root, if safe == "" then "." else safe));
      && (!StartsWithRoot(resolved, Render(root)) ==> response == Forbidden && probed == [])
      && (StartsWithRoot(resolved, Render(root)) ==>
            var candidates := Candidates(root, pathname, safe);
            response == Outcome(candidates, isFile, readable) && ProbedPrefix(probed, candidates, isFile))
  {
    var decoded := decode(StripLeadingSlashes(pathname));
    if decoded.None? {
      return ServerError, [];
    }
    var safe := decoded.value;
    var resolvedPath := PathOf(Resolve(root, if safe == "" then "." else safe));
    if !StartsWithRoot(resolvedPath, Render(root)) {
      return Forbidden, [];
    }
    response, probed := ServeCandidates(root, pathname, safe, isFile, readable);
  }

  /**
   * The handler with the intended containment test: 403 exactly when the resolved path lies
   * outside the root, that is when the root's segments are not a prefix of the resolved ones.
   */
  method HandleRequestIntended(root: seq<string>, pathname: string, decode: string -> Option<string>,
                               isFile: string -> bool, readable: string -> bool)
    returns (response: Response, probed: seq<string>)
    requires Proper(root) && root != []
    ensures response == Answer(Intended, root, pathname, decode, isFile, readable)
    ensures decode(StripLeadingSlashes(pathname)).None? ==> response == ServerError && probed == []
    ensures decode(StripLeadingSlashes(pathname)).Some? ==>
      var safe := decode(StripLeadingSlashes(pathname)).value;
      var resolved := Resolve(root, if safe == "" then "." else safe);
      && (!IsPrefix(root, resolved) ==> response == Forbidden && probed == [])
      && (IsPrefix(root, resolved) ==>
            var candidates := Candidates(root, pathname, safe);
            response == Outcome(candidates, isFile, readable) && ProbedPrefix(probed, candidates, isFile))
  {
    var decoded := decode(StripLeadingSlashes(pathname));
    if decoded.None? {
      return ServerError, [];
    }
    var safe := decoded.value;
    var resolvedSegs := Resolve(root, if safe == "" then "." else safe);
    var resolvedPath := PathOf(resolvedSegs);
    WithinRootIffInside(resolvedSegs, root);
    if !WithinRoot(resolvedPath, Render(root)) {
      return Forbidden, [];
    }
    response, probed := ServeCandidates(root, pathname, safe, isFile, readable);
  }

  /** Everything after the containment test: build the candidates, probe them, read the file. */
  method ServeCandidates(root: seq<string>, pathname: string, safe: string, isFile: string -> bool, readable: string -> bool)
    returns (response: Response, probed: seq<string>)
    requires Proper(root)
    ensures var candidates := Candidates(root, pathname, safe);
      response == Outcome(candidates, isFile, readable) && ProbedPrefix(probed, candidates, isFile)
  {
    var tryPaths := TryPaths(root, pathname, safe);
    var foundPath;
    foundPath, probed := ProbeCandidates(tryPaths, isFile);
    if foundPath.None? {
      return NotFound, probed;
    }
    var file := foundPath.value;
    if !readable(file) {
      return ServerError, probed;
    }
    response := Served(file, ContentTypeOf(file));
  }

  /**
   * The two handlers answer alike except on a decoded path whose resolution starts with the root
   * string yet lies outside the root (a sibling such as ".../out-private"): there the intended
   * handler refuses with 403 and the written one probes and answers as for a path inside.
   */
  lemma AnswersDifferOnlyOutsideRoot(root: seq<string>, pathname: string, decode: string -> Option<string>,
                                     isFile: string -> bool, readable: string -> bool)
    requires Proper(root) && root != []
    ensures var written, intended := Answer(AsWritten, root, pathname, decode, isFile, readable),
                                     Answer(Intended, root, pathname, decode, isFile, readable);
      && (written != intended <==>
            && decode(StripLeadingSlashes(pathname)).Some?
            && var safe := decode(StripLeadingSlashes(pathname)).value;
               var resolved := Resolve(root, if safe == "" then "." else safe);
               StartsWithRoot(PathOf(resolved), Render(root)) && !IsPrefix(root, resolved))
      && (written != intended ==> intended == Forbidden && written != Forbidden)
  {
    match decode(StripLeadingSlashes(pathname))
    case None =>
    case Some(safe) =>
      var resolved := Resolve(root, if safe == "" then "." else safe);
      WithinRootIffInside(resolved, root);
      if WithinRoot(PathOf(resolved), Render(root)) {
        WithinRootImpliesStartsWithRoot(PathOf(resolved), Render(root));
      }
  }

  /**
   * `tryPaths`: the resolved path and the path with ".html", with the directory index put in
   * front for a directory request and appended otherwise.
   */
  method TryPaths(root: seq<string>, pathname: string, safe: string) returns (tryPaths: seq<string>)
    requires Proper(root)
    ensures tryPaths == Candidates(root, pathname, safe)
  {
    var resolvedSegs := Resolve(root, if safe == "" then "." else safe);
    var resolvedPath := PathOf(resolvedSegs);
    tryPaths := [resolvedPath];
    tryPaths := tryPaths + [resolvedPath + ".html"];
    if safe == "" || EndsWith(pathname, "/") {
      tryPaths := [PathOf(JoinPath(root, safe) + [INDEX])] + tryPaths;
    } else {
      tryPaths := tryPaths + [PathOf(resolvedSegs + [INDEX])];
    }
  }

  /**
   * The probing loop: each candidate in turn until one is a regular file. A candidate that does
   * not exist is probed like one that is not a file.
   */
  method ProbeCandidates(tryPaths: seq<string>, isFile: string -> bool)
    returns (found: Option<string>, probed: seq<string>)
    ensures found == FirstFile(tryPaths, isFile)
    ensures |probed| <= |tryPaths| && probed == tryPaths[..|probed|]
    ensures found.None? ==> probed == tryPaths
    ensures found.Some? ==> probed != [] && probed[|probed| - 1] == found.value
    ensures forall j :: 0 <= j < |probed| - 1 ==> !isFile(probed[j])
  {
    found, probed := None, [];
    var i := 0;
    while i < |tryPaths|
      invariant 0 <= i <= |tryPaths|
      invariant probed == tryPaths[..i]
      invariant forall j :: 0 <= j < i ==> !isFile(tryPaths[j])
    {
      var candidate := tryPaths[i];
      probed := probed + [candidate];
      if isFile(candidate) {
        FirstFileAt(tryPaths, isFile, i);
        assert probed == tryPaths[..i + 1];
        return Some(candidate), probed;
      }
      i := i + 1;
    }
    assert probed == tryPaths;
  }

  lemma FirstFileAt(c: seq<string>, isFile: string -> bool, k: nat)
    requires k < |c| && isFile(c[k]) && forall j :: 0 <= j < k ==> !isFile(c[j])
    ensures FirstFile(c, isFile) == Some(c[k])
  {
    var found := FirstFile(c, isFile);
    var m :| 0 <= m < |c| && c[m] == found.value && isFile(c[m]) && forall j :: 0 <= j < m ==> !isFile(c[j]);
    assert m == k;
  }

  /**
   * For a directory request with a relative decoded path the index of the resolved directory is
   * probed first, then the directory path itself, then that path with ".html".
   */
  lemma DirectoryIndexFirst(root: seq<string>, pathname: string, safe: string)
    requires Proper(root)
    requires safe == "" || (EndsWith(pathname, "/") && safe[0] != '/')
    ensures var resolved := Resolve(root, if safe == "" then "." else safe);
      Candidates(root, pathname, safe) == [PathOf(resolved + [INDEX]), PathOf(resolved), PathOf(resolved) + ".html"]
  {
    if safe == "" {
      SplitWithoutSeparator("", '/');
      SplitWithoutSeparator(".", '/');
    }
  }

  /** For any other request the exact path comes first, then ".html", then the directory index. */
  lemma ExactPathFirst(root: seq<string>, pathname: string, safe: string)
    requires Proper(root)
    requires safe != "" && !EndsWith(pathname, "/")
    ensures var resolved := Resolve(root, safe);
      Candidates(root, pathname, safe) == [PathOf(resolved), PathOf(resolved) + ".html", PathOf(resolved + [INDEX])]
  {
  }

  // ---- the server and the UI address ----

  class Server {
    /** The cached base URL of the running static server. */
    var url: Option<string>
    /** How many HTTP servers have been created. */
    var serversCreated: nat

    constructor ()
      ensures url == None && serversCreated == 0
    {
      url := None;
      serversCreated := 0;
    }

    /**
     * `startStaticFileServer`: once a URL is cached it is returned and no server is created;
     * otherwise one server is created, listening on the port the system assigns.
     */
    method StartStaticFileServer(port: nat) returns (u: string)
      modifies this
      ensures old(url).Some? ==> u == old(url).value && url == old(url) && serversCreated == old(serversCreated)
      ensures old(url).None? ==>
        && u == "http://127.0.0.1:" + NatToString(port) && url == Some(u)
        && serversCreated == old(serversCreated) + 1
    {
      if url.Some? {
        return url.value;
      }
      serversCreated := serversCreated + 1;
      u := "http://127.0.0.1:" + NatToString(port);
      url := Some(u);
    }

    /**
     * `resolveUiUrl`: a non-empty `UI_URL` wins, then the development server, then the static
     * server when the built index exists; otherwise there is no UI address.
     */
    method ResolveUiUrl(uiUrl: Option<string>, isDev: bool, builtIndexExists: bool, port: nat) returns (r: Option<string>)
      modifies this
      ensures uiUrl.Some? && uiUrl.value != "" ==> r == uiUrl && url == old(url) && serversCreated == old(serversCreated)
      ensures !(uiUrl.Some? && uiUrl.value != "") && isDev ==>
        r == Some(DEV_URL) && url == old(url) && serversCreated == old(serversCreated)
      ensures !(uiUrl.Some? && uiUrl.value != "") && !isDev && builtIndexExists ==>
        && r == Some(if old(url).Some? then old(url).value else "http://127.0.0.1:" + NatToString(port))
        && url == r
        && serversCreated == old(serversCreated) + (if old(url).Some? then 0 else 1)
      ensures !(uiUrl.Some? && uiUrl.value != "") && !isDev && !builtIndexExists ==>
        r == None && url == old(url) && serversCreated == old(serversCreated)
    {
      if uiUrl.Some? && uiUrl.value != "" {
        return uiUrl;
      }
      if isDev {
        return Some(DEV_URL);
      }
      if builtIndexExists {
        var u := StartStaticFileServer(port);
        return Some(u);
      }
      return None;
    }
  }
}
