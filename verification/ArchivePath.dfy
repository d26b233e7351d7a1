/** Member names of a release archive: which are accepted, in what form, and which lie inside which. */
module ArchivePath {
  import opened Common

  /** Puts one more character in front of a split path. */
  function Ahead(c: char, parts: seq<string>): (r: seq<string>)
    requires |parts| > 0
    ensures |r| > 0
  {
    if c == '/' then [""] + parts else [[c] + parts[0]] + parts[1..]
  }

  function Split(v: string): (parts: seq<string>)
    ensures |parts| > 0
  {
    if v == "" then [""] else Ahead(v[0], Split(v[1..]))
  }

  function Join(parts: seq<string>): string
    requires |parts| > 0
  {
    if |parts| == 1 then parts[0] else parts[0] + "/" + Join(parts[1..])
  }

  function StripDots(v: string): string {
    if "./" <= v then StripDots(v[2..]) else v
  }

  function StripSlashes(v: string): string {
    if v != "" && v[|v| - 1] == '/' then StripSlashes(v[..|v| - 1]) else v
  }

  predicate SafeChar(c: char) {
    '0' <= c <= '9' || 'A' <= c <= 'Z' || 'a' <= c <= 'z' || c == '.' || c == '_' || c == '+' || c == '-'
  }

  predicate SafePart(part: string) {
    part != "" && part != "." && part != ".." && forall i :: 0 <= i < |part| ==> SafeChar(part[i])
  }

  predicate Canonical(v: string) {
    forall i :: 0 <= i < |Split(v)| ==> SafePart(Split(v)[i])
  }

  predicate Unsafe(raw: string) {
    raw == "" || '\0' in raw || '\\' in raw || raw[0] == '/'
  }

  /** The accepted name, nothing for the archive's own root directory, or a refusal. */
  function Name(raw: string, isDirectory: bool): Result<Option<string>, ()> {
    if Unsafe(raw) then Err(())
    else
      var v := if isDirectory then StripSlashes(StripDots(raw)) else StripDots(raw);
      if v == "" || v == "." then (if isDirectory then Ok(None) else Err(()))
      else if Canonical(v) then Ok(Some(v)) else Err(())
  }

  method CanonicalArchivePath(raw: string, isDirectory: bool) returns (r: Result<Option<string>, ()>)
    ensures r == Name(raw, isDirectory)
  {
    if raw == "" || '\0' in raw || '\\' in raw || "/" <= raw { return Err(()); }
    var value := raw;
    while "./" <= value
      invariant StripDots(value) == StripDots(raw)
      decreases |value|
    {
      value := value[2..];
    }
    if isDirectory { value := StripSlashes(value); }
    if value == "" || value == "." {
      if isDirectory { return Ok(None); }
      return Err(());
    }
    var parts := Split(value);
    if exists i | 0 <= i < |parts| :: !SafePart(parts[i]) { return Err(()); }
    JoinSplit(value);
    r := Ok(Some(Join(parts)));
  }

  lemma {:induction false} JoinSplit(v: string)
    ensures Join(Split(v)) == v
  {
    if v != "" {
      JoinSplit(v[1..]);
      var rest := Split(v[1..]);
      if v[0] == '/' {
        assert Ahead('/', rest)[1..] == rest;
      } else {
        assert Ahead(v[0], rest)[1..] == rest[1..];
      }
    }
  }

  lemma {:induction false} SplitAtSlash(p: string, q: string)
    ensures Split(p + "/" + q) == Split(p) + Split(q)
  {
    if p == "" {
      assert ("" + "/" + q)[1..] == q;
    } else {
      hide Ahead;
      SplitAtSlash(p[1..], q);
      assert (p + "/" + q)[1..] == p[1..] + "/" + q && (p + "/" + q)[0] == p[0];
      AheadAppend(p[0], Split(p[1..]), Split(q));
    }
  }

  lemma AheadAppend(c: char, a: seq<string>, b: seq<string>)
    requires a != []
    ensures Ahead(c, a + b) == Ahead(c, a) + b
  {
    assert (a + b)[0] == a[0] && (a + b)[1..] == a[1..] + b;
  }

  /** Every character of a path is a separator or inside one of its parts. */
  lemma {:induction false} CharInPart(v: string, i: nat) returns (k: nat, j: nat)
    requires i < |v| && v[i] != '/'
    ensures k < |Split(v)| && j < |Split(v)[k]| && Split(v)[k][j] == v[i]
  {
    if i == 0 {
      k, j := 0, 0;
    } else {
      k, j := CharInPart(v[1..], i - 1);
      if v[0] == '/' { k := k + 1; } else if k == 0 { j := j + 1; }
    }
  }

  /** Accepting a canonical name changes nothing, as a file or as a directory. */
  lemma CanonicalIsFixed(v: string, isDirectory: bool)
    requires Canonical(v)
    ensures Name(v, isDirectory) == Ok(Some(v))
  {
    EdgeParts(v);
    assert SafePart(Split(v)[0]) && SafePart(Split(v)[|Split(v)| - 1]);
    assert '\0' !in v && '\\' !in v by {
      forall i | 0 <= i < |v| ensures v[i] != '\0' && v[i] != '\\' {
        if v[i] != '/' {
          var k, j := CharInPart(v, i);
          assert SafeChar(Split(v)[k][j]);
        }
      }
    }
    assert StripDots(v) == v && StripSlashes(v) == v;
  }

  lemma SplitDot()
    ensures Split(".") == ["."] && Split("") == [""]
  {
    assert "."[1..] == "" && Split("") == [""] && ['.'] + "" == ".";
  }

  /** What the first and the last part say about how a path begins and ends. */
  lemma EdgeParts(v: string)
    ensures v == "" || v[0] == '/' ==> Split(v)[0] == ""
    ensures v == "." || "./" <= v ==> Split(v)[0] == "."
    ensures v != "" && v[|v| - 1] == '/' ==> Split(v)[|Split(v)| - 1] == ""
  {
    SplitDot();
    if "./" <= v {
      SplitAtSlash(".", v[2..]);
      assert v == "." + "/" + v[2..];
    }
    if v != "" && v[|v| - 1] == '/' {
      SplitAtSlash(v[..|v| - 1], "");
      assert v == v[..|v| - 1] + "/" + "";
    }
  }

  lemma AcceptedIsCanonical(raw: string, isDirectory: bool)
    ensures Name(raw, isDirectory).Ok? && Name(raw, isDirectory).value.Some? ==>
      var v := Name(raw, isDirectory).value.value;
      Canonical(v) && Name(v, true) == Name(v, false) == Ok(Some(v))
  {
    var n := Name(raw, isDirectory);
    if n.Ok? && n.value.Some? {
      CanonicalIsFixed(n.value.value, true);
      CanonicalIsFixed(n.value.value, false);
    }
  }

  /** Where a path leads from `at`: up at "..", nowhere further once that leaves the top. */
  function Walk(at: seq<string>, parts: seq<string>): Option<seq<string>>
    decreases parts
  {
    if parts == [] then Some(at)
    else if parts[0] == "" || parts[0] == "." then Walk(at, parts[1..])
    else if parts[0] == ".." then (if at == [] then None else Walk(at[..|at| - 1], parts[1..]))
    else Walk(at + [parts[0]], parts[1..])
  }

  lemma {:induction false} WalkAppend(at: seq<string>, a: seq<string>, b: seq<string>)
    ensures Walk(at, a + b) == if Walk(at, a).Some? then Walk(Walk(at, a).value, b) else None
    decreases a
  {
    if a == [] {
      assert a + b == b;
    } else {
      assert (a + b)[1..] == a[1..] + b && (a + b)[0] == a[0];
      if a[0] == "" || a[0] == "." {
        WalkAppend(at, a[1..], b);
      } else if a[0] != ".." {
        WalkAppend(at + [a[0]], a[1..], b);
      } else if at != [] {
        WalkAppend(at[..|at| - 1], a[1..], b);
      }
    }
  }

  /** Parts that are places, and not ways to stay or to go up. */
  predicate Plain(parts: seq<string>) {
    "" !in parts && "." !in parts && ".." !in parts
  }

  lemma {:induction false} WalkPlain(at: seq<string>, parts: seq<string>)
    requires Plain(parts)
    ensures Walk(at, parts) == Some(at + parts)
    decreases parts
  {
    if parts == [] {
      assert at + parts == at;
    } else {
      assert parts[0] in parts;
      WalkPlain(at + [parts[0]], parts[1..]);
      assert at + [parts[0]] + parts[1..] == at + parts;
    }
  }

  function Repeat(part: string, n: nat): (r: seq<string>)
    ensures |r| == n && forall i :: 0 <= i < n ==> r[i] == part
  {
    seq(n, _ => part)
  }

  lemma {:induction false} WalkStays(at: seq<string>, part: string, n: nat)
    requires part == "" || part == "."
    ensures Walk(at, Repeat(part, n)) == Some(at)
  {
    if n > 0 {
      assert Repeat(part, n)[1..] == Repeat(part, n - 1);
      WalkStays(at, part, n - 1);
    }
  }

  /** A digit, a letter, a full stop, an underscore, a plus or a minus, by code point. */
  predicate Portable(c: char) {
    var n := c as int;
    48 <= n <= 57 || 65 <= n <= 90 || 97 <= n <= 122 || n in {43, 45, 46, 95}
  }

  ghost predicate PlainName(part: string) {
    part != "" && part != "." && part != ".." && forall i :: 0 <= i < |part| ==> Portable(part[i])
  }

  /** The raw name is some "." parts, then places with portable names, then empty parts. */
  ghost predicate Spelled(raw: string, k: nat, parts: seq<string>, j: nat) {
    && Split(raw) == Repeat(".", k) + parts + Repeat("", j)
    && forall i :: 0 <= i < |parts| ==> PlainName(parts[i])
  }

  /** Only a directory may end in empty parts, or have no place at all. */
  ghost predicate SpelledAs(raw: string, isDirectory: bool, k: nat, parts: seq<string>, j: nat) {
    Spelled(raw, k, parts, j) && (k > 0 || parts != []) && (isDirectory || (parts != [] && j == 0))
  }

  lemma SafeIsPlain(part: string)
    ensures SafePart(part) <==> PlainName(part)
  {
    assert forall c :: SafeChar(c) <==> Portable(c);
  }

  lemma FirstPart(v: string)
    ensures Split(v)[0] == "" <==> v == "" || v[0] == '/'
  {
    EdgeParts(v);
  }

  lemma {:induction false} StripDotsParts(v: string) returns (k: nat)
    ensures Split(v) == Repeat(".", k) + Split(StripDots(v)) && (k == 0 ==> StripDots(v) == v)
  {
    hide Split, Repeat;
    if "./" <= v {
      k := StripDotsParts(v[2..]);
      SplitAtSlash(".", v[2..]);
      SplitDot();
      assert v == "." + "/" + v[2..];
      assert Repeat(".", k + 1) == ["."] + Repeat(".", k);
      k := k + 1;
    } else {
      k := 0;
      assert Repeat(".", 0) == [];
    }
  }

  lemma {:induction false} StripSlashesParts(v: string) returns (j: nat)
    ensures Split(v) == Split(StripSlashes(v)) + Repeat("", j)
  {
    if v != "" && v[|v| - 1] == '/' {
      var w := v[..|v| - 1];
      j := StripSlashesParts(w);
      SplitAtSlash(w, "");
      SplitDot();
      assert v == w + "/" + "";
      assert Repeat("", j + 1) == Repeat("", j) + [""];
      j := j + 1;
    } else {
      j := 0;
      assert Repeat("", 0) == [];
    }
  }

  lemma {:induction false} StripSlashesStart(v: string)
    requires v != "" && v[0] != '/'
    ensures StripSlashes(v) != ""
  {
    if v[|v| - 1] == '/' { StripSlashesStart(v[..|v| - 1]); }
  }

  /** How an accepted name was spelled. */
  lemma AcceptedIsSpelled(raw: string, isDirectory: bool) returns (k: nat, parts: seq<string>, j: nat)
    requires Name(raw, isDirectory).Ok?
    ensures SpelledAs(raw, isDirectory, k, parts, j)
    ensures Name(raw, isDirectory).value == if parts == [] then None else Some(Join(parts))
  {
    k := StripDotsParts(raw);
    var w := StripDots(raw);
    var v := w;
    j := 0;
    if isDirectory {
      j := StripSlashesParts(w);
      v := StripSlashes(w);
    }
    SplitDot();
    if v == "" {
      if k == 0 { StripSlashesStart(raw); }
      parts := [];
      assert [""] + Repeat("", j) == Repeat("", j + 1);
      j := j + 1;
    } else if v == "." {
      parts := [];
      assert Repeat(".", k) + ["."] == Repeat(".", k + 1);
      k := k + 1;
    } else {
      parts := Split(v);
      JoinSplit(v);
      forall i | 0 <= i < |parts| ensures PlainName(parts[i]) { SafeIsPlain(parts[i]); }
    }
    assert Split(raw) == Repeat(".", k) + parts + Repeat("", j);
  }

  lemma TailOfSplit(v: string)
    requires |Split(v)| > 1
    ensures var head := Split(v)[0]; head + "/" <= v && Split(v[|head| + 1..]) == Split(v)[1..]
  {
    var parts := Split(v);
    JoinSplit(v);
    var rest := v[|parts[0]| + 1..];
    assert v == parts[0] + "/" + rest && rest == Join(parts[1..]);
    SplitAtSlash(parts[0], rest);
    HeadHasNoSlash(v);
  }

  lemma {:induction false} HeadHasNoSlash(v: string)
    ensures Split(Split(v)[0]) == [Split(v)[0]]
  {
    if v != "" && v[0] != '/' {
      HeadHasNoSlash(v[1..]);
      var head := Split(v[1..])[0];
      assert ([v[0]] + head)[1..] == head;
    }
  }

  lemma {:induction false} StripDotsOf(raw: string, k: nat, rest: seq<string>)
    requires Split(raw) == Repeat(".", k) + rest && (rest == [] || rest[0] != ".")
    ensures rest == [] ==> StripDots(raw) == "."
    ensures rest != [] ==> Split(StripDots(raw)) == rest
  {
    hide Split, Repeat;
    EdgeParts(raw);
    if k > 0 {
      assert Split(raw)[0] == ".";
      if k == 1 && rest == [] {
        JoinSplit(raw);
        assert Split(raw) == ["."];
      } else {
        TailOfSplit(raw);
        assert Split(raw)[1..] == Repeat(".", k - 1) + rest;
        StripDotsOf(raw[2..], k - 1, rest);
      }
    }
  }

  lemma FrontOfSplit(v: string)
    requires |Split(v)| > 1 && Split(v)[|Split(v)| - 1] == ""
    ensures v != "" && v[|v| - 1] == '/' && Split(v[..|v| - 1]) == Split(v)[..|Split(v)| - 1]
  {
    assert Join([""]) == "";
    hide Split, Join;
    var parts := Split(v);
    var front := parts[..|parts| - 1];
    assert parts == front + [""];
    JoinSplit(v);
    JoinAppend(front, [""]);
    SplitBeforeSlash(v, Join(front), front);
  }

  lemma SplitBeforeSlash(v: string, w: string, front: seq<string>)
    requires v == w + "/" + "" && Split(v) == front + [""]
    ensures v != "" && v[|v| - 1] == '/' && v[..|v| - 1] == w && Split(w) == front
  {
    hide Split;
    SplitAtSlash(w, "");
    SplitDot();
    assert Split(w) + [""] == front + [""];
    assert (Split(w) + [""])[..|Split(w)|] == Split(w) && (front + [""])[..|front|] == front;
  }

  lemma {:induction false} StripSlashesOf(v: string, parts: seq<string>, j: nat)
    requires Split(v) == parts + Repeat("", j) && "" !in parts
    ensures parts == [] ==> StripSlashes(v) == ""
    ensures parts != [] ==> Split(StripSlashes(v)) == parts
  {
    if j > 0 && |Split(v)| > 1 {
      FrontOfSplit(v);
      assert Split(v)[..|Split(v)| - 1] == parts + Repeat("", j - 1);
      StripSlashesOf(v[..|v| - 1], parts, j - 1);
    } else if parts == [] {
      JoinSplit(v);
      assert Split(v) == [""];
    } else {
      EdgeParts(v);
      assert Split(v)[|Split(v)| - 1] == parts[|parts| - 1];
    }
  }

  lemma SpelledIsSafe(raw: string, k: nat, parts: seq<string>, j: nat)
    requires Spelled(raw, k, parts, j) && (k > 0 || parts != [])
    ensures !Unsafe(raw)
  {
    FirstPart(raw);
    forall i | 0 <= i < |raw| ensures raw[i] != '\0' && raw[i] != '\\' {
      if raw[i] != '/' {
        var a, b := CharInPart(raw, i);
        if k <= a < k + |parts| { assert PlainName(parts[a - k]); }
      }
    }
  }

  /** Every such spelling is accepted, as exactly the name its places make. */
  lemma SpelledIsAccepted(raw: string, isDirectory: bool, k: nat, parts: seq<string>, j: nat)
    requires SpelledAs(raw, isDirectory, k, parts, j)
    ensures Name(raw, isDirectory) == Ok(if parts == [] then None else Some(Join(parts)))
  {
    SpelledIsSafe(raw, k, parts, j);
    forall i | 0 <= i < |parts| ensures SafePart(parts[i]) { SafeIsPlain(parts[i]); }
    var rest := parts + Repeat("", j);
    assert Repeat(".", k) + parts + Repeat("", j) == Repeat(".", k) + rest;
    StripDotsOf(raw, k, rest);
    var w := StripDots(raw);
    if rest == [] {
      assert StripSlashes(".") == ".";
    } else if isDirectory {
      StripSlashesOf(w, parts, j);
      JoinSplit(StripSlashes(w));
      SplitDot();
    } else {
      assert rest == parts;
      JoinSplit(w);
      SplitDot();
    }
  }

  /**
   A name is accepted exactly when it is spelled as some "." parts, then portable places, then (for a
   directory) empty parts, with a place in it unless it names the archive's own root directory.
   */
  lemma AcceptedExactly(raw: string, isDirectory: bool)
    ensures Name(raw, isDirectory).Ok? <==> exists k, parts, j :: SpelledAs(raw, isDirectory, k, parts, j)
  {
    if exists k, parts, j :: SpelledAs(raw, isDirectory, k, parts, j) {
      var k, parts, j :| SpelledAs(raw, isDirectory, k, parts, j);
      SpelledIsAccepted(raw, isDirectory, k, parts, j);
    }
    if Name(raw, isDirectory).Ok? {
      var k, parts, j := AcceptedIsSpelled(raw, isDirectory);
      assert SpelledAs(raw, isDirectory, k, parts, j);
    }
  }

  /** The accepted name leads where the raw name leads, both without ever going up, and the root stays at the top. */
  lemma NameLeadsTheSameWay(raw: string, isDirectory: bool)
    requires Name(raw, isDirectory).Ok?
    ensures ".." !in Split(raw)
    ensures match Name(raw, isDirectory).value
      case Some(v) => ".." !in Split(v) && Walk([], Split(raw)) == Walk([], Split(v)) == Some(Split(v))
      case None => Walk([], Split(raw)) == Some([])
  {
    hide Name, Split, Repeat, Walk, Spelled;
    var k, parts, j := AcceptedIsSpelled(raw, isDirectory);
    SpelledLeads(raw, k, parts, j);
    if parts != [] {
      SplitOfJoin(raw, k, parts, j);
      PlainLeads(parts);
    }
  }

  lemma PlainLeads(parts: seq<string>)
    requires Plain(parts)
    ensures Walk([], parts) == Some(parts)
  {
    WalkPlain([], parts);
    assert [] + parts == parts;
  }

  lemma SpelledLeads(raw: string, k: nat, parts: seq<string>, j: nat)
    requires Spelled(raw, k, parts, j)
    ensures Plain(parts) && ".." !in Split(raw) && Walk([], Split(raw)) == Some(parts)
  {
    hide Split, Repeat, Walk;
    var dots, blanks := Repeat(".", k), Repeat("", j);
    forall part | part in parts ensures PlainName(part) {
    }
    WalkStays([], ".", k);
    WalkAppend([], dots, parts);
    PlainLeads(parts);
    WalkAppend([], dots + parts, blanks);
    WalkStays(parts, "", j);
  }

  lemma SplitOfJoin(raw: string, k: nat, parts: seq<string>, j: nat)
    requires Spelled(raw, k, parts, j) && parts != []
    ensures Split(Join(parts)) == parts
  {
    SpelledIsAccepted(raw, true, k, parts, j);
    var rest := parts + Repeat("", j);
    assert Repeat(".", k) + parts + Repeat("", j) == Repeat(".", k) + rest;
    StripDotsOf(raw, k, rest);
    StripSlashesOf(StripDots(raw), parts, j);
  }

  /** A path below the one `root` leads to, and below nothing that goes up. */
  lemma AboveLeadsBelow(root: string, name: string)
    requires Canonical(name) && Above(root, name)
    ensures Walk([], Split(root)) == Some(Split(root)) && Walk([], Split(name)) == Some(Split(name))
    ensures Split(root) < Split(name)
  {
    var rest := name[|root| + 1..];
    assert name == root + "/" + rest;
    SplitAtSlash(root, rest);
    forall i | 0 <= i < |Split(name)| ensures PlainName(Split(name)[i]) { SafeIsPlain(Split(name)[i]); }
    forall i | 0 <= i < |Split(root)| ensures PlainName(Split(root)[i]) {
      assert Split(root)[i] == Split(name)[i];
    }
    WalkPlain([], Split(root));
    WalkPlain([], Split(name));
    assert [] + Split(root) == Split(root) && [] + Split(name) == Split(name);
  }

  /** `a` is a proper ancestor of `b`. */
  predicate Above(a: string, b: string) {
    a + "/" <= b
  }

  lemma {:induction false} JoinAppend(a: seq<string>, b: seq<string>)
    requires a != [] && b != []
    ensures Join(a + b) == Join(a) + "/" + Join(b)
  {
    if |a| == 1 {
      assert (a + b)[1..] == b;
    } else {
      JoinAppend(a[1..], b);
      assert (a + b)[1..] == a[1..] + b;
    }
  }

  /** The parents of a path, joined up from its first parts, are exactly its ancestors. */
  lemma ParentIsAbove(name: string, i: nat)
    requires 0 < i < |Split(name)|
    ensures Above(Join(Split(name)[..i]), name)
  {
    var c := Split(name);
    JoinSplit(name);
    JoinAppend(c[..i], c[i..]);
    assert c[..i] + c[i..] == c;
  }

  lemma AboveIsParent(a: string, name: string) returns (i: nat)
    requires Above(a, name)
    ensures 0 < i < |Split(name)| && a == Join(Split(name)[..i])
  {
    var rest := name[|a| + 1..];
    assert name == a + "/" + rest;
    SplitAtSlash(a, rest);
    JoinSplit(a);
    i := |Split(a)|;
    assert Split(name)[..i] == Split(a);
  }
}
