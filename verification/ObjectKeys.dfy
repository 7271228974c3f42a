/** How the object-storage backends map hashes to keys under a configured prefix:
    `path.Join` on segments, and when the way back through `unkey` is exact. */
module ObjectKeys {
  import opened Names

  // ---------------------------------------------------------------- path.Clean

  /** The segments between slashes. */
  function Split(s: string): (r: seq<string>)
    ensures r != []
  {
    if s == "" then [""]
    else
      var rest := Split(s[1..]);
      if s[0] == '/' then [""] + rest else [[s[0]] + rest[0]] + rest[1..]
  }

  /** One more segment: empty and "." segments vanish, ".." goes back where it can. */
  function Resolve(rooted: bool, out: seq<string>, segment: string): seq<string> {
    if segment == "" || segment == "." then out
    else if segment == ".." then
      if out != [] && out[|out| - 1] != ".." then out[..|out| - 1]
      else if rooted then out
      else out + [segment]
    else out + [segment]
  }

  function Resolved(rooted: bool, segments: seq<string>): seq<string> {
    if segments == [] then []
    else Resolve(rooted, Resolved(rooted, segments[..|segments| - 1]), segments[|segments| - 1])
  }

  function Joined(segments: seq<string>): string {
    if segments == [] then ""
    else if |segments| == 1 then segments[0]
    else Joined(segments[..|segments| - 1]) + "/" + segments[|segments| - 1]
  }

  predicate Rooted(p: string) {
    p != "" && p[0] == '/'
  }

  function Clean(p: string): string {
    var out := Resolved(Rooted(p), Split(p));
    if Rooted(p) then "/" + Joined(out)
    else if out == [] then "."
    else Joined(out)
  }

  // ---------------------------------------------------------------- key and unkey

  function Key(prefix: string, hash: string): string {
    if prefix == "" then hash else Clean(prefix + "/" + hash)
  }

  function Unkey(prefix: string, key: string): string {
    if prefix == "" then key
    else if prefix + "/" <= key then key[|prefix| + 1..]
    else key
  }

  /** The keys `List` asks the service for. */
  predicate Queried(prefix: string, key: string) {
    prefix == "" || prefix + "/" <= key
  }

  /** A name that can be one segment of a key; every valid hash is one. */
  predicate Segment(name: string) {
    name != "" && name != "." && name != ".." && '/' !in name
  }

  lemma ValidHashIsSegment(hash: string)
    requires ValidHash(hash)
    ensures Segment(hash)
  {
    assert hash == "." || hash == ".." ==> hash[0] == '.';
    assert !HashChar('.') && !HashChar('/');
  }

  // ---------------------------------------------------------------- lemmas on segments

  lemma {:induction false} SplitName(name: string)
    requires '/' !in name
    ensures Split(name) == [name]
  {
    if name != "" {
      SplitName(name[1..]);
      assert [name[0]] + name[1..] == name;
    }
  }

  lemma {:induction false} SplitAppend(p: string, name: string)
    requires '/' !in name
    ensures Split(p + "/" + name) == Split(p) + [name]
  {
    var s := p + "/" + name;
    if p == "" {
      SplitName(name);
      assert s[1..] == name;
    } else {
      SplitAppend(p[1..], name);
      assert s[1..] == p[1..] + "/" + name;
    }
  }

  lemma ResolvedAppend(rooted: bool, segments: seq<string>, name: string)
    requires Segment(name)
    ensures Resolved(rooted, segments + [name]) == Resolved(rooted, segments) + [name]
  {
    assert (segments + [name])[..|segments|] == segments;
  }

  lemma JoinedAppend(segments: seq<string>, name: string)
    ensures Joined(segments + [name]) == if segments == [] then name else Joined(segments) + "/" + name
  {
    assert (segments + [name])[..|segments|] == segments;
  }

  /** Nothing of the prefix is left once it is cleaned. */
  predicate Vanishes(prefix: string) {
    Resolved(Rooted(prefix), Split(prefix)) == []
  }

  /** Joining a name to a prefix: the cleaned prefix, a slash, and the name, unless the prefix
      cleans to nothing. */
  lemma KeyShape(prefix: string, name: string)
    requires prefix != "" && Segment(name)
    ensures Key(prefix, name) ==
      if !Vanishes(prefix) then Clean(prefix) + "/" + name
      else if Rooted(prefix) then "/" + name
      else name
    ensures Vanishes(prefix) ==> Clean(prefix) == "/" || Clean(prefix) == "."
  {
    var out := Resolved(Rooted(prefix), Split(prefix));
    SplitAppend(prefix, name);
    ResolvedAppend(Rooted(prefix), Split(prefix), name);
    JoinedAppend(out, name);
    assert (prefix + "/" + name)[0] == prefix[0];
  }

  // ---------------------------------------------------------------- the mapping

  /** The prefixes the mapping works for. */
  predicate GoodPrefix(prefix: string) {
    prefix == "" || (Clean(prefix) == prefix && prefix != "/" && prefix != ".")
  }

  lemma SlashAndDotVanish()
    ensures Vanishes("/") && Vanishes(".")
  {
    var empty: seq<string> := [];
    SplitName("");
    SplitName(".");
    assert Split("/") == [""] + Split("/"[1..]);
    assert "/"[1..] == "";
    assert Resolved(true, ["", ""][..1]) == [] by {
      assert ["", ""][..1] == [""] && [""][..0] == empty;
    }
    assert Resolved(false, ["."]) == [] by { assert ["."][..0] == empty; }
  }

  lemma SuffixesEqual(a: string, b: string, x: string, y: string)
    requires a + x == b + y && |x| == |y|
    ensures a == b && x == y
  {
    assert a == (a + x)[..|a|] && b == (b + y)[..|b|];
    assert x == (a + x)[|a|..] && y == (b + y)[|b|..];
  }

  lemma LastSlash(a: string, x: string, b: string, y: string)
    requires '/' !in x && '/' !in y && a + "/" + x == b + "/" + y
    ensures a == b && x == y
  {
    var s := a + "/" + x;
    forall k | |a| < k < |s| ensures s[k] != '/' { assert s[k] == x[k - |a| - 1]; }
    forall k | |b| < k < |s| ensures s[k] != '/' { assert s[k] == y[k - |b| - 1]; }
    assert s[|a|] == '/' && s[|b|] == '/';
    assert s == a + ("/" + x) && s == b + ("/" + y);
    SuffixesEqual(a, b, "/" + x, "/" + y);
    assert x == ("/" + x)[1..] && y == ("/" + y)[1..];
  }

  /** The length of a joined path, with one slash behind every segment. */
  function Length(segments: seq<string>): nat {
    if segments == [] then 0 else Length(segments[..|segments| - 1]) + |segments[|segments| - 1]| + 1
  }

  lemma {:induction false} LengthPrepend(head: string, segments: seq<string>)
    ensures Length([head] + segments) == |head| + 1 + Length(segments)
  {
    var all := [head] + segments;
    if segments == [] {
      assert all[..0] == [];
    } else {
      LengthPrepend(head, segments[..|segments| - 1]);
      assert all[..|segments|] == [head] + segments[..|segments| - 1];
    }
  }

  lemma {:induction false} SplitLength(s: string)
    ensures Length(Split(s)) == |s| + 1
  {
    if s == "" {
      assert [""][..0] == [];
    } else {
      var rest := Split(s[1..]);
      SplitLength(s[1..]);
      LengthPrepend(rest[0], rest[1..]);
      assert rest == [rest[0]] + rest[1..];
      LengthPrepend("", rest);
      LengthPrepend([s[0]] + rest[0], rest[1..]);
    }
  }

  lemma {:induction false} JoinedLength(segments: seq<string>)
    requires segments != []
    ensures |Joined(segments)| == Length(segments) - 1
  {
    if |segments| > 1 {
      JoinedLength(segments[..|segments| - 1]);
    } else {
      assert segments[..0] == [];
    }
  }

  /** One more segment adds at most its own length, and nothing if it is empty. */
  lemma ResolveLength(rooted: bool, out: seq<string>, segment: string)
    ensures Length(Resolve(rooted, out, segment)) <= Length(out) + (if segment == "" then 0 else |segment| + 1)
  {
    assert (out + [segment])[..|out|] == out;
  }

  lemma {:induction false} ResolvedLength(rooted: bool, segments: seq<string>)
    requires segments != []
    ensures Length(Resolved(rooted, segments)) <= Length(segments) - (if segments[0] == "" then 1 else 0)
  {
    var n := |segments| - 1;
    ResolveLength(rooted, Resolved(rooted, segments[..n]), segments[n]);
    if n > 0 {
      ResolvedLength(rooted, segments[..n]);
    }
  }

  /** Cleaning never makes a path longer. */
  lemma CleanShortens(p: string)
    requires p != ""
    ensures |Clean(p)| <= |p|
  {
    var segments := Split(p);
    SplitLength(p);
    ResolvedLength(Rooted(p), segments);
    if Resolved(Rooted(p), segments) != [] {
      JoinedLength(Resolved(Rooted(p), segments));
    }
  }

  lemma SlashAfterPrefix(prefix: string, key: string)
    requires prefix != "" && Queried(prefix, key)
    ensures |prefix| < |key| && key[|prefix|] == '/'
  {
    assert key[|prefix|] == (prefix + "/")[|prefix|];
  }

  lemma ListedShape(prefix: string, clean: string, hash: string)
    requires prefix + "/" <= clean + "/" + hash && '/' !in hash && |clean| <= |prefix|
    ensures clean == prefix
  {
    var key := clean + "/" + hash;
    forall k | |clean| < k < |key| ensures key[k] != '/' { assert key[k] == hash[k - |clean| - 1]; }
    assert key[|prefix|] == (prefix + "/")[|prefix|];
    assert prefix == (prefix + "/")[..|prefix|] == key[..|prefix|] == clean;
  }

  /** `List` finds the key of a hash, and maps it back to the hash, if and only if the prefix is
      empty, or clean and neither "/" nor "."; under any other prefix it finds nothing at all. */
  lemma KeyRoundTrip(prefix: string, hash: string)
    requires ValidHash(hash)
    ensures Queried(prefix, Key(prefix, hash)) <==> GoodPrefix(prefix)
    ensures GoodPrefix(prefix) ==> Unkey(prefix, Key(prefix, hash)) == hash
  {
    ValidHashIsSegment(hash);
    if prefix != "" {
      KeyShape(prefix, hash);
      SlashAndDotVanish();
      if Queried(prefix, Key(prefix, hash)) {
        if Vanishes(prefix) {
          NothingListed(prefix, hash, Key(prefix, hash));
        } else {
          CleanShortens(prefix);
          ListedShape(prefix, Clean(prefix), hash);
        }
      }
    }
  }

  lemma NothingListed(prefix: string, hash: string, key: string)
    requires prefix != "" && '/' !in hash && (key == hash || key == "/" + hash)
    ensures !Queried(prefix, key)
  {
    forall k | 0 < k < |key| ensures key[k] != '/' { assert key[k] == hash[k - |key| + |hash|]; }
    if Queried(prefix, key) {
      SlashAfterPrefix(prefix, key);
    }
  }

  /** Two hashes never share a key, whatever the prefix. */
  lemma KeyInjective(prefix: string, hash: string, other: string)
    requires ValidHash(hash) && ValidHash(other) && Key(prefix, hash) == Key(prefix, other)
    ensures hash == other
  {
    ValidHashIsSegment(hash);
    ValidHashIsSegment(other);
    if prefix != "" {
      KeyShape(prefix, hash);
      KeyShape(prefix, other);
      if !Vanishes(prefix) {
        LastSlash(Clean(prefix), hash, Clean(prefix), other);
      } else if Rooted(prefix) {
        assert hash == ("/" + hash)[1..] && other == ("/" + other)[1..];
      }
    }
  }

  lemma SlashInKey(prefix: string, hash: string)
    requires Segment(hash) && GoodPrefix(prefix)
    ensures '/' in Key(prefix, hash) <==> prefix != ""
  {
    if prefix != "" {
      KeyShape(prefix, hash);
      assert Key(prefix, hash)[|prefix|] == '/';
    }
  }

  /** Nor do two deployments that share a bucket under different good prefixes. */
  lemma PrefixesDisjoint(prefix: string, hash: string, other: string, otherHash: string)
    requires ValidHash(hash) && ValidHash(otherHash) && GoodPrefix(prefix) && GoodPrefix(other)
    requires Key(prefix, hash) == Key(other, otherHash)
    ensures prefix == other && hash == otherHash
  {
    ValidHashIsSegment(hash);
    ValidHashIsSegment(otherHash);
    SlashInKey(prefix, hash);
    SlashInKey(other, otherHash);
    if prefix != "" && other != "" {
      KeyShape(prefix, hash);
      KeyShape(other, otherHash);
      LastSlash(prefix, hash, other, otherHash);
    }
  }

  // ---------------------------------------------------------------- cleaning a prefix repairs it

  predicate Plain(segments: seq<string>) {
    forall i :: 0 <= i < |segments| ==> '/' !in segments[i]
  }

  /** What `Clean` leaves: no empty or "." segments, and ".." only in front of a relative path. */
  predicate Normal(rooted: bool, out: seq<string>) {
    && Plain(out)
    && (forall i :: 0 <= i < |out| ==> out[i] != "" && out[i] != ".")
    && (forall i :: 0 <= i < |out| && out[i] == ".." ==> !rooted && forall j :: 0 <= j < i ==> out[j] == "..")
  }

  lemma {:induction false} SplitPlain(s: string)
    ensures Plain(Split(s))
  {
    if s != "" {
      SplitPlain(s[1..]);
    }
  }

  lemma {:induction false} ResolvedNormal(rooted: bool, segments: seq<string>)
    requires Plain(segments)
    ensures Normal(rooted, Resolved(rooted, segments))
  {
    if segments != [] {
      ResolvedNormal(rooted, segments[..|segments| - 1]);
    }
  }

  lemma NormalFront(rooted: bool, out: seq<string>)
    requires Normal(rooted, out) && out != []
    ensures Normal(rooted, out[..|out| - 1])
    ensures Resolve(rooted, out[..|out| - 1], out[|out| - 1]) == out
  {
    var front := out[..|out| - 1];
    assert front + [out[|out| - 1]] == out;
    assert front != [] ==> front[|front| - 1] == out[|out| - 2];
  }

  lemma {:induction false} NormalStays(rooted: bool, out: seq<string>)
    requires Normal(rooted, out)
    ensures Resolved(rooted, out) == out
  {
    if out != [] {
      NormalFront(rooted, out);
      NormalStays(rooted, out[..|out| - 1]);
    }
  }

  lemma {:induction false} LeadingSlash(segments: seq<string>)
    ensures Resolved(true, [""] + segments) == Resolved(true, segments)
  {
    var all := [""] + segments;
    if segments == [] {
      assert all[..0] == [];
    } else {
      LeadingSlash(segments[..|segments| - 1]);
      assert all[..|segments|] == [""] + segments[..|segments| - 1];
    }
  }

  lemma {:induction false} SplitJoined(out: seq<string>)
    requires out != [] && Plain(out)
    ensures Split(Joined(out)) == out
  {
    var n := |out| - 1;
    if n == 0 {
      SplitName(out[0]);
    } else {
      SplitJoined(out[..n]);
      SplitAppend(Joined(out[..n]), out[n]);
    }
  }

  lemma {:induction false} JoinedStart(out: seq<string>)
    requires out != [] && out[0] != ""
    ensures Joined(out) != "" && Joined(out)[0] == out[0][0]
  {
    if |out| > 1 {
      JoinedStart(out[..|out| - 1]);
    }
  }

  lemma NormalIsClean(rooted: bool, out: seq<string>)
    requires Normal(rooted, out) && out != []
    ensures var p := if rooted then "/" + Joined(out) else Joined(out);
      Clean(p) == p && !Vanishes(p)
  {
    var p := if rooted then "/" + Joined(out) else Joined(out);
    JoinedStart(out);
    SplitJoined(out);
    NormalStays(rooted, out);
    assert Rooted(p) == rooted;
    if rooted {
      assert p[1..] == Joined(out);
      LeadingSlash(out);
    }
  }

  /** Cleaning is idempotent, so storing the cleaned prefix makes the mapping exact, for every
      prefix of which anything is left. */
  lemma CleaningRepairs(prefix: string)
    ensures Clean(Clean(prefix)) == Clean(prefix)
    ensures prefix != "" ==> (GoodPrefix(Clean(prefix)) <==> !Vanishes(prefix))
  {
    SplitPlain(prefix);
    ResolvedNormal(Rooted(prefix), Split(prefix));
    var out := Resolved(Rooted(prefix), Split(prefix));
    SlashAndDotVanish();
    if out != [] {
      NormalIsClean(Rooted(prefix), out);
    }
  }

  /** A slash behind a good prefix changes no key, and hides all of them from `List`. */
  lemma TrailingSlashHides(prefix: string, hash: string)
    requires prefix != "" && GoodPrefix(prefix) && ValidHash(hash)
    ensures !GoodPrefix(prefix + "/")
    ensures Key(prefix + "/", hash) == Key(prefix, hash) && !Queried(prefix + "/", Key(prefix + "/", hash))
  {
    var slashed := prefix + "/";
    assert prefix + "/" + "" == slashed;
    SplitAppend(prefix, "");
    var segments := Split(prefix);
    assert (segments + [""])[..|segments|] == segments;
    assert slashed[0] == prefix[0];
    assert Clean(slashed) == prefix;
    ValidHashIsSegment(hash);
    KeyShape(prefix, hash);
    KeyShape(slashed, hash);
    KeyRoundTrip(slashed, hash);
  }

  /** For example, under the prefix "cache/" an artifact is kept as "cache/<hash>", which the query
      for "cache//" misses. */
  lemma CacheSlashHides(hash: string)
    requires ValidHash(hash)
    ensures Key("cache/", hash) == "cache/" + hash && !Queried("cache/", "cache/" + hash)
  {
    SplitName("cache");
    var segments := ["cache"];
    assert segments[..0] == [];
    assert Resolved(false, segments) == segments;
    ValidHashIsSegment(hash);
    KeyShape("cache", hash);
    TrailingSlashHides("cache", hash);
    assert "cache" + "/" == "cache/";
  }

  lemma ResolvedStep(rooted: bool, segments: seq<string>, segment: string)
    ensures Resolved(rooted, segments + [segment]) == Resolve(rooted, Resolved(rooted, segments), segment)
  {
    assert (segments + [segment])[..|segments|] == segments;
  }

  lemma ParentCancels(rooted: bool, segments: seq<string>, name: string)
    requires Segment(name)
    ensures Resolved(rooted, segments + [name] + [".."]) == Resolved(rooted, segments)
  {
    ResolvedAppend(rooted, segments, name);
    ResolvedStep(rooted, segments + [name], "..");
    assert (Resolved(rooted, segments) + [name])[..|Resolved(rooted, segments)|] == Resolved(rooted, segments);
  }

  /** A ".." goes back one name where there is one; at the root there is none, and in front of a relative
      path it stays. */
  lemma ParentGoesBack(prefix: string, name: string)
    requires prefix != "" && Segment(name)
    ensures Clean(prefix + "/" + name + "/" + "..") == Clean(prefix)
    ensures Clean("/..") == "/" && Clean("..") == ".."
  {
    SplitAppend(prefix, name);
    SplitAppend(prefix + "/" + name, "..");
    ParentCancels(Rooted(prefix), Split(prefix), name);
    assert (prefix + "/" + name + "/" + "..")[0] == prefix[0];
    DotDotAlone();
  }

  lemma DotDotAlone()
    ensures Clean("/..") == "/" && Clean("..") == ".."
  {
    SplitName("..");
    SplitAppend("", "..");
    assert "" + "/" + ".." == "/..";
    SplitName("");
    var empty: seq<string> := [];
    assert ["", ".."][..1] == [""] && [""][..0] == empty && [".."][..0] == empty;
    assert Resolved(true, [""]) == [];
    assert Resolved(false, [".."]) == [".."];
  }

  // ---------------------------------------------------------------- deployments in one bucket

  /** The keys under `other` are among those the query for `prefix` finds. */
  predicate Covers(prefix: string, other: string) {
    prefix == other || prefix == "" || prefix + "/" <= other
  }

  lemma FoundThenCovered(prefix: string, other: string, hash: string)
    requires '/' !in hash && prefix + "/" <= other + "/" + hash
    ensures prefix == other || prefix + "/" <= other
  {
    var key := other + "/" + hash;
    var n := |prefix|;
    forall k | |other| < k < |key| ensures key[k] != '/' { assert key[k] == hash[k - |other| - 1]; }
    assert key[..n + 1] == prefix + "/";
    assert key[n] == '/';
    if n == |other| {
      assert key[..n] == other && (prefix + "/")[..n] == prefix;
    } else {
      assert key[..n + 1] == other[..n + 1];
    }
  }

  lemma CoveredThenFound(prefix: string, other: string, hash: string)
    requires prefix == other || prefix + "/" <= other
    ensures prefix + "/" <= other + "/" + hash
  {
    if prefix != other {
      assert (other + "/" + hash)[..|prefix| + 1] == other[..|prefix| + 1];
    }
  }

  /** The listing of one deployment shows an artifact of another exactly if its prefix covers the
      other's. */
  lemma ListingReachesIff(prefix: string, other: string, hash: string)
    requires GoodPrefix(prefix) && GoodPrefix(other) && ValidHash(hash)
    ensures Queried(prefix, Key(other, hash)) <==> Covers(prefix, other)
  {
    ValidHashIsSegment(hash);
    if prefix != "" && other == "" {
      if Queried(prefix, hash) { SlashAfterPrefix(prefix, hash); }
    } else if prefix != "" {
      KeyShape(other, hash);
      if Queried(prefix, Key(other, hash)) { FoundThenCovered(prefix, other, hash); }
      if Covers(prefix, other) { CoveredThenFound(prefix, other, hash); }
    }
  }

  /** What a listing shows of another deployment: a name that is no hash, but leads back to the same
      key. */
  lemma ListedNameOfOther(prefix: string, other: string, hash: string)
    requires GoodPrefix(prefix) && GoodPrefix(other) && ValidHash(hash) && Covers(prefix, other)
    ensures var name := Unkey(prefix, Key(other, hash));
      && Key(prefix, name) == Key(other, hash)
      && (ValidHash(name) <==> prefix == other)
  {
    ValidHashIsSegment(hash);
    var key, name := Key(other, hash), Unkey(prefix, Key(other, hash));
    if prefix == other {
      KeyRoundTrip(prefix, hash);
    } else {
      KeyShape(other, hash);
      ListingReachesIff(prefix, other, hash);
      assert key[|other|] == '/';
      if prefix == "" {
        assert !HashChar(name[|other|]);
      } else {
        assert key == prefix + "/" + name;
        CleaningRepairs(other + "/" + hash);
        assert name[|other| - |prefix| - 1] == '/';
        assert !HashChar(name[|other| - |prefix| - 1]);
      }
    }
  }

  /** For example the listing of the deployment "a" shows the artifacts of "a/b". */
  lemma NestedDeployment(hash: string)
    requires ValidHash(hash)
    ensures GoodPrefix("a") && GoodPrefix("a/b") && Covers("a", "a/b")
    ensures Queried("a", Key("a/b", hash)) && Unkey("a", Key("a/b", hash)) == "b/" + hash
  {
    SplitName("a");
    assert ["a"][..0] == [];
    assert Resolved(false, ["a"]) == ["a"];
    assert Clean("a") == "a";
    KeyShape("a", "b");
    assert "a" + "/" + "b" == "a/b";
    assert Clean("a/b") == "a/b";
    assert "a" + "/" == "a/b"[..2];
    ValidHashIsSegment(hash);
    KeyShape("a/b", hash);
    ListingReachesIff("a", "a/b", hash);
    assert Key("a/b", hash) == "a" + "/" + ("b/" + hash);
  }
}
