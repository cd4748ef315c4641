/**
 The string functions that Prepare relies on: searching, splitting, trimming, the
 whitespace split of a command line, `%s` formatting and replacement.
 */
module Text {

  predicate Occurs(s: string, sep: string, i: int) {
    0 <= i <= |s| - |sep| && s[i..i + |sep|] == sep
  }

  lemma OccursInTail(s: string, sep: string, i: int)
    requires 1 <= i && s != ""
    ensures Occurs(s, sep, i) <==> Occurs(s[1..], sep, i - 1)
  {
    assert i <= |s| - |sep| ==> s[i..i + |sep|] == s[1..][i - 1..i - 1 + |sep|];
  }

  /** strings.Index */
  function Index(s: string, sep: string): (r: int)
    requires sep != ""
    ensures r == -1 || Occurs(s, sep, r)
    ensures forall i | 0 <= i < |s| && (r == -1 || i < r) :: !Occurs(s, sep, i)
  {
    if |s| < |sep| then -1
    else if s[..|sep|] == sep then 0
    else
      var rest := Index(s[1..], sep);
      assert forall i | 1 <= i < |s| :: Occurs(s, sep, i) <==> Occurs(s[1..], sep, i - 1) by {
        forall i | 1 <= i < |s| ensures Occurs(s, sep, i) <==> Occurs(s[1..], sep, i - 1) {
          OccursInTail(s, sep, i);
        }
      }
      if rest == -1 then -1 else rest + 1
  }

  predicate Contains(s: string, sep: string)
    requires sep != ""
  {
    Index(s, sep) != -1
  }

  /** strings.Split for a separator that is not empty. */
  function Split(s: string, sep: string): (parts: seq<string>)
    requires sep != ""
    ensures parts != []
  {
    var i := Index(s, sep);
    if i == -1 then [s] else [s[..i]] + Split(s[i + |sep|..], sep)
  }

  function Join(parts: seq<string>, sep: string): string {
    if parts == [] then "" else if |parts| == 1 then parts[0] else parts[0] + sep + Join(parts[1..], sep)
  }

  /** strings.Replace with n = -1 and a search string that is not empty. */
  function ReplaceAll(s: string, what: string, with: string): string
    requires what != ""
  {
    var i := Index(s, what);
    if i == -1 then s else s[..i] + with + ReplaceAll(s[i + |what|..], what, with)
  }

  /** unicode.IsSpace */
  predicate IsSpace(c: char) {
    '\t' <= c <= '\r' || c in " \U{85}\U{A0}\U{1680}\U{2028}\U{2029}\U{202F}\U{205F}\U{3000}" ||
      '\U{2000}' <= c <= '\U{200A}'
  }

  function TrimLeft(s: string): string {
    if s != "" && IsSpace(s[0]) then TrimLeft(s[1..]) else s
  }

  function TrimRight(s: string): string {
    if s != "" && IsSpace(s[|s| - 1]) then TrimRight(s[..|s| - 1]) else s
  }

  /** strings.TrimSpace */
  function TrimSpace(s: string): string {
    TrimRight(TrimLeft(s))
  }

  /** The length of the leading run of characters that are not white space. */
  function TokenLength(s: string): (n: nat)
    ensures n <= |s| && forall i | 0 <= i < n :: !IsSpace(s[i])
    ensures n < |s| ==> IsSpace(s[n])
  {
    if s == "" || IsSpace(s[0]) then 0 else 1 + TokenLength(s[1..])
  }

  predicate IsToken(s: string) {
    s != "" && forall c | c in s :: !IsSpace(c)
  }

  /** strings.Fields */
  function Fields(s: string): seq<string> {
    if s == "" then []
    else if IsSpace(s[0]) then Fields(s[1..])
    else [s[..TokenLength(s)]] + Fields(s[TokenLength(s)..])
  }

  /** fmt.Sprintf for templates whose verbs are all %s, one for each argument. */
  function Sprintf(template: string, args: seq<string>): string {
    var i := Index(template, "%s");
    if i == -1 || args == [] then template
    else template[..i] + args[0] + Sprintf(template[i + 2..], args[1..])
  }

  // ----- trimming -----

  lemma {:induction false} TrimLeftIs(s: string) returns (n: nat)
    ensures n <= |s| && TrimLeft(s) == s[n..] && forall i | 0 <= i < n :: IsSpace(s[i])
    ensures n < |s| ==> !IsSpace(s[n])
  {
    n := 0;
    if s != "" && IsSpace(s[0]) {
      n := TrimLeftIs(s[1..]);
      n := n + 1;
    }
  }

  lemma {:induction false} TrimRightIs(s: string) returns (n: nat)
    ensures n <= |s| && TrimRight(s) == s[..n] && forall i | n <= i < |s| :: IsSpace(s[i])
    ensures n > 0 ==> !IsSpace(s[n - 1])
  {
    n := |s|;
    if s != "" && IsSpace(s[|s| - 1]) {
      n := TrimRightIs(s[..|s| - 1]);
    }
  }

  /** Trimming cuts off a leading and a trailing run of white space and leaves neither behind. */
  lemma TrimSpaceIs(s: string) returns (a: nat, b: nat)
    ensures a <= b <= |s| && TrimSpace(s) == s[a..b]
    ensures forall i | 0 <= i < a || b <= i < |s| :: IsSpace(s[i])
    ensures a < b ==> !IsSpace(s[a]) && !IsSpace(s[b - 1])
  {
    a := TrimLeftIs(s);
    b := TrimRightIs(s[a..]);
    b := a + b;
    assert a < |s| ==> s[a..][0] == s[a];
  }

  // ----- splitting -----

  /** The first part ends where the separator first occurs. */
  lemma {:induction false} IndexIs(s: string, sep: string, i: nat)
    requires sep != "" && Occurs(s, sep, i) && forall j | 0 <= j < i :: !Occurs(s, sep, j)
    ensures Index(s, sep) == i
  {
  }

  lemma {:induction false} SplitFirst(a: string, c: char, b: string)
    requires c !in a
    ensures Split(a + [c] + b, [c]) == [a] + Split(b, [c])
  {
    var s := a + [c] + b;
    assert s[|a|..|a| + 1] == [c];
    forall j | 0 <= j < |a| ensures !Occurs(s, [c], j) {
      assert s[j] == a[j];
      assert s[j..j + 1] == [s[j]];
    }
    IndexIs(s, [c], |a|);
    assert s[..|a|] == a && s[|a| + 1..] == b;
  }

  lemma {:induction false} SplitNone(s: string, c: char)
    requires c !in s
    ensures Split(s, [c]) == [s]
  {
    forall i ensures !Occurs(s, [c], i) {
      assert 0 <= i < |s| ==> s[i..i + 1][0] == s[i];
    }
  }

  /** Splitting undoes joining when no part contains the separator. */
  lemma {:induction false} SplitJoin(parts: seq<string>, c: char)
    requires parts != [] && forall p | p in parts :: c !in p
    ensures Split(Join(parts, [c]), [c]) == parts
  {
    if |parts| == 1 {
      SplitNone(parts[0], c);
      assert parts == [parts[0]];
    } else {
      assert forall p | p in parts[1..] :: p in parts;
      assert parts == [parts[0]] + parts[1..];
      SplitFirst(parts[0], c, Join(parts[1..], [c]));
      SplitJoin(parts[1..], c);
    }
  }

  /** Splitting cuts at every occurrence: no part contains the separator, and the parts joined by it are the text. */
  lemma {:induction false} SplitRejoins(s: string, sep: string)
    requires sep != ""
    ensures Join(Split(s, sep), sep) == s && forall p | p in Split(s, sep) :: !Contains(p, sep)
    decreases |s|
  {
    var i := Index(s, sep);
    if i != -1 {
      var rest := Split(s[i + |sep|..], sep);
      SplitRejoins(s[i + |sep|..], sep);
      FirstPartIsFree(s, sep, i);
      assert Split(s, sep)[1..] == rest;
      assert s == s[..i] + sep + s[i + |sep|..];
    }
  }

  lemma {:induction false} FirstPartIsFree(s: string, sep: string, i: nat)
    requires sep != "" && Index(s, sep) == i
    ensures !Contains(s[..i], sep)
  {
    var j := Index(s[..i], sep);
    if j != -1 {
      assert s[..i][j..j + |sep|] == s[j..j + |sep|];
      assert Occurs(s, sep, j);
    }
  }

  // ----- command lines -----

  lemma {:induction false} TokenPrefix(a: string, b: string)
    requires IsToken(a) && (b == "" || IsSpace(b[0]))
    ensures TokenLength(a + b) == |a|
    ensures Fields(a + b) == [a] + Fields(b)
  {
    forall i | 0 <= i < |a| ensures !IsSpace((a + b)[i]) {
      assert a[i] in a;
    }
    assert b != "" ==> (a + b)[|a|] == b[0];
    assert (a + b)[..|a|] == a && (a + b)[|a|..] == b;
    assert (a + b)[0] == a[0] && a[0] in a;
  }

  lemma {:induction false} FieldsAreTokens(s: string)
    ensures forall t | t in Fields(s) :: IsToken(t)
    decreases |s|
  {
    if s != "" {
      if IsSpace(s[0]) {
        FieldsAreTokens(s[1..]);
      } else {
        FieldsAreTokens(s[TokenLength(s)..]);
        assert TokenLength(s) > 0;
        assert IsToken(s[..TokenLength(s)]);
      }
    }
  }

  lemma {:induction false} FieldsOfTokens(words: seq<string>)
    requires forall w | w in words :: IsToken(w)
    ensures Fields(Join(words, " ")) == words
  {
    if words != [] {
      assert IsToken(words[0]);
      if |words| == 1 {
        TokenPrefix(words[0], "");
        assert words[0] + "" == words[0];
      } else {
        var rest := " " + Join(words[1..], " ");
        TokenPrefix(words[0], rest);
        assert words[0] + " " + Join(words[1..], " ") == words[0] + rest;
        assert rest[1..] == Join(words[1..], " ");
        FieldsOfTokens(words[1..]);
      }
    }
  }

  /** Words joined by blanks come back as they were if and only if each is non-empty and free of white space. */
  lemma {:induction false} FieldsUndoJoin(words: seq<string>)
    ensures Fields(Join(words, " ")) == words <==> forall w | w in words :: IsToken(w)
  {
    if forall w | w in words :: IsToken(w) {
      FieldsOfTokens(words);
    } else {
      FieldsAreTokens(Join(words, " "));
    }
  }

  lemma {:induction false} SprintfStep(pre: string, post: string, arg: string, args: seq<string>)
    requires '%' !in pre
    ensures Sprintf(pre + "%s" + post, [arg] + args) == pre + arg + Sprintf(post, args)
  {
    var t := pre + "%s" + post;
    assert t[|pre|..|pre| + 2] == "%s";
    forall j | 0 <= j < |pre| ensures !Occurs(t, "%s", j) {
      assert t[j] == pre[j];
      assert j <= |t| - 2 ==> t[j..j + 2][0] == t[j];
    }
    IndexIs(t, "%s", |pre|);
    assert t[..|pre|] == pre && t[|pre| + 2..] == post;
    assert ([arg] + args)[1..] == args;
  }

  lemma {:induction false} SprintfPlain(s: string, args: seq<string>)
    requires '%' !in s
    ensures Sprintf(s, args) == s
  {
    forall i ensures !Occurs(s, "%s", i) {
      assert 0 <= i <= |s| - 2 ==> s[i..i + 2][0] == s[i];
    }
  }

  /** The arguments between the pieces of a template. */
  function Weave(pieces: seq<string>, args: seq<string>): string
    requires |pieces| == |args| + 1
  {
    if args == [] then pieces[0] else pieces[0] + args[0] + Weave(pieces[1..], args[1..])
  }

  lemma {:induction false} SprintfWeaves(pieces: seq<string>, args: seq<string>)
    requires |pieces| == |args| + 1 && forall p | p in pieces :: '%' !in p
    ensures Sprintf(Join(pieces, "%s"), args) == Weave(pieces, args)
  {
    if args == [] {
      SprintfPlain(pieces[0], args);
    } else {
      SprintfStep(pieces[0], Join(pieces[1..], "%s"), args[0], args[1..]);
      assert args == [args[0]] + args[1..];
      SprintfWeaves(pieces[1..], args[1..]);
    }
  }

  // ----- replacement -----

  /** Every occurrence is replaced: the text is cut at the searched text and joined by the new one. */
  lemma {:induction false} ReplaceIsSplitAndJoin(s: string, what: string, with: string)
    requires what != ""
    ensures ReplaceAll(s, what, with) == Join(Split(s, what), with)
    decreases |s|
  {
    var i := Index(s, what);
    if i != -1 {
      ReplaceIsSplitAndJoin(s[i + |what|..], what, with);
      assert Split(s, what)[1..] == Split(s[i + |what|..], what);
    }
  }

  /** An occurrence of a text without `c` lies on one side of the `c`. */
  lemma OccursOnOneSide(a: string, c: char, b: string, what: string, j: nat)
    requires what != "" && c !in what && Occurs(a + [c] + b, what, j)
    ensures Occurs(a, what, j) || (j > |a| && Occurs(b, what, j - |a| - 1))
  {
    var s := a + [c] + b;
    assert s[|a|] == c;
    forall k | j <= k < j + |what| ensures s[k] != c {
      assert s[k] == s[j..j + |what|][k - j];
    }
    if j + |what| <= |a| {
      assert a[j..j + |what|] == s[j..j + |what|];
    } else if j > |a| {
      assert b[j - |a| - 1..j - |a| - 1 + |what|] == s[j..j + |what|];
    }
  }

  /** Where a text without `c` first occurs in what stands around a `c`. */
  lemma {:induction false} IndexAcross(a: string, c: char, b: string, what: string)
    requires what != "" && c !in what
    ensures Index(a + [c] + b, what) ==
      if Contains(a, what) then Index(a, what)
      else if Contains(b, what) then |a| + 1 + Index(b, what)
      else -1
  {
    var s := a + [c] + b;
    var i, k, r := Index(a, what), Index(b, what), Index(s, what);
    if i != -1 {
      assert s[i..i + |what|] == a[i..i + |what|];
      assert Occurs(s, what, i);
    } else if k != -1 {
      assert s[|a| + 1 + k..|a| + 1 + k + |what|] == b[k..k + |what|];
      assert Occurs(s, what, |a| + 1 + k);
    }
    if r != -1 {
      OccursOnOneSide(a, c, b, what, r);
    }
  }

  lemma {:induction false} ReplaceFirst(s: string, pre: string, what: string, post: string, with: string)
    requires what != "" && s == pre + what + post && Index(s, what) == |pre|
    ensures ReplaceAll(s, what, with) == pre + with + ReplaceAll(post, what, with)
  {
    assert s[..|pre|] == pre && s[|pre| + |what|..] == post;
  }

  /** The text around its first occurrence. */
  lemma AroundFirst(s: string, what: string) returns (pre: string, post: string)
    requires what != "" && Contains(s, what)
    ensures s == pre + what + post && Index(s, what) == |pre| && |post| < |s|
  {
    pre, post := s[..Index(s, what)], s[Index(s, what) + |what|..];
  }

  lemma Regrouped(u: string, v: string, w: string, x: string, y: string)
    ensures (u + v + w) + x + y == u + v + (w + x + y)
    ensures u + x + (v + w + y) == (u + x + v) + w + y
  {
  }

  /** A text without `c` is replaced on the two sides of a `c` separately. */
  lemma {:induction false} ReplaceAcross(a: string, c: char, b: string, what: string, with: string)
    requires what != "" && c !in what
    ensures ReplaceAll(a + [c] + b, what, with) == ReplaceAll(a, what, with) + [c] + ReplaceAll(b, what, with)
    decreases |a|
  {
    IndexAcross(a, c, b, what);
    if Contains(a, what) {
      var pre, post := AroundFirst(a, what);
      ReplaceAcross(post, c, b, what, with);
      ReplaceFirst(a, pre, what, post, with);
      Regrouped(pre, what, post, [c], b);
      ReplaceFirst(a + [c] + b, pre, what, post + [c] + b, with);
      Regrouped(pre, with, ReplaceAll(post, what, with), [c], ReplaceAll(b, what, with));
    } else if Contains(b, what) {
      ReplaceBehind(a, c, b, what, with);
    }
  }

  lemma {:induction false} ReplaceBehind(a: string, c: char, b: string, what: string, with: string)
    requires what != "" && c !in what && !Contains(a, what) && Contains(b, what)
    ensures ReplaceAll(a + [c] + b, what, with) == a + [c] + ReplaceAll(b, what, with)
  {
    var pre, post := AroundFirst(b, what);
    IndexAcross(a, c, b, what);
    ReplaceFirst(b, pre, what, post, with);
    Regrouped(a, pre, what, [c], post);
    ReplaceFirst(a + [c] + b, a + [c] + pre, what, post, with);
    Regrouped(a, pre, with, [c], ReplaceAll(post, what, with));
  }

  lemma {:induction false} ReplaceAtEnd(a: string, what: string, with: string)
    requires what != "" && what[0] !in a
    ensures ReplaceAll(a + what, what, with) == a + with
  {
    var s := a + what;
    assert s[|a|..|a| + |what|] == what;
    forall j | 0 <= j < |a| ensures !Occurs(s, what, j) {
      assert s[j] == a[j];
      assert j <= |s| - |what| ==> s[j..j + |what|][0] == s[j];
    }
    IndexIs(s, what, |a|);
    assert s[..|a|] == a && s[|s|..] == "";
  }

  /** Replacing by something longer never shortens a string, and lengthens it when there is something to replace. */
  lemma {:induction false} ReplaceLengthens(s: string, what: string, with: string)
    requires what != "" && |with| > |what|
    ensures |ReplaceAll(s, what, with)| >= |s| + (if Contains(s, what) then 1 else 0)
    decreases |s|
  {
    var i := Index(s, what);
    if i != -1 {
      var rest := s[i + |what|..];
      ReplaceLengthens(rest, what, with);
      assert |ReplaceAll(s, what, with)| == i + |with| + |ReplaceAll(rest, what, with)|;
    }
  }

  /** Replacing by something longer changes a string exactly when the searched text occurs in it. */
  lemma {:induction false} ReplaceChanges(s: string, what: string, with: string)
    requires what != "" && |with| > |what|
    ensures |ReplaceAll(s, what, with)| >= |s|
    ensures ReplaceAll(s, what, with) != s <==> Contains(s, what)
  {
    ReplaceLengthens(s, what, with);
  }

  /**
   Replacing a name that follows a `c` by something longer leaves what stands before the `c`
   alone exactly when the name does not occur there.
   */
  lemma {:induction false} ReplaceInLast(dir: string, c: char, name: string, with: string)
    requires name != "" && c !in name && |with| > |name|
    ensures ReplaceAll(dir + [c] + name, name, with) == dir + [c] + with <==> !Contains(dir, name)
  {
    ReplaceAcross(dir, c, name, name, with);
    ReplaceAtEnd("", name, with);
    assert "" + name == name && "" + with == with;
    ReplaceChanges(dir, name, with);
    SameEnds(ReplaceAll(dir, name, with), dir, [c], with);
  }

  lemma SameEnds(a: string, b: string, x: string, y: string)
    ensures a + x + y == b + x + y <==> a == b
  {
    if a + x + y == b + x + y {
      assert (a + x + y)[..|a|] == a && (b + x + y)[..|b|] == b;
    }
  }
}
