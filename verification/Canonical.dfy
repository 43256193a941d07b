/**
 The canonical strings that are hashed: fields joined by a separator, and lists of elements sorted before they are joined.
 A hash is represented by its preimage, so what matters is when two preimages are equal.
 */
module Canonical {

  function Join(parts: seq<string>, sep: char): string {
    if parts == [] then "" else if |parts| == 1 then parts[0] else parts[0] + [sep] + Join(parts[1..], sep)
  }

  predicate Free(s: string, sep: char) {
    sep !in s
  }

  predicate AllFree(parts: seq<string>, sep: char) {
    forall i | 0 <= i < |parts| :: Free(parts[i], sep)
  }

  /** The text before the first separator is determined. */
  lemma FirstPart(x: string, u: string, y: string, v: string, sep: char)
    requires Free(x, sep) && Free(y, sep) && x + [sep] + u == y + [sep] + v
    ensures x == y && u == v
  {
    var s := x + [sep] + u;
    assert s[|x|] == sep && s[|y|] == sep;
    assert forall i | 0 <= i < |x| :: s[i] == x[i] && x[i] in x;
    assert forall i | 0 <= i < |y| :: s[i] == y[i] && y[i] in y;
    assert s[..|x|] == x && s[..|y|] == y;
    assert s[|x| + 1..] == u && s[|y| + 1..] == v;
  }

  lemma NoSeparatorInLast(x: string, y: string, v: string, sep: char)
    requires Free(x, sep)
    ensures x != y + [sep] + v
  {
    assert (y + [sep] + v)[|y|] == sep;
  }

  /** Lists of parts without the separator are determined by their joined text. */
  lemma {:induction false} JoinInjective(a: seq<string>, b: seq<string>, sep: char)
    requires a != [] && b != [] && AllFree(a, sep) && AllFree(b, sep) && Join(a, sep) == Join(b, sep)
    ensures a == b
  {
    if |a| == 1 && |b| == 1 {
    } else if |a| == 1 {
      NoSeparatorInLast(a[0], b[0], Join(b[1..], sep), sep);
      assert false;
    } else if |b| == 1 {
      NoSeparatorInLast(b[0], a[0], Join(a[1..], sep), sep);
      assert false;
    } else {
      FirstPart(a[0], Join(a[1..], sep), b[0], Join(b[1..], sep), sep);
      JoinInjective(a[1..], b[1..], sep);
    }
  }

  lemma {:induction false} JoinAppend(parts: seq<string>, part: string, sep: char)
    requires parts != []
    ensures Join(parts + [part], sep) == Join(parts, sep) + [sep] + part
  {
    if |parts| > 1 {
      assert (parts + [part])[1..] == parts[1..] + [part];
      JoinAppend(parts[1..], part, sep);
    }
  }

  /** Lengthening the last part lengthens the joined text. */
  lemma JoinExtend(parts: seq<string>, part: string, more: string, sep: char)
    ensures Join(parts + [part + more], sep) == Join(parts + [part], sep) + more
  {
    if parts != [] {
      JoinAppend(parts, part, sep);
      JoinAppend(parts, part + more, sep);
    }
  }

  /** How often the separator occurs. */
  function Count(s: string, sep: char): nat {
    if s == "" then 0 else Count(s[..|s| - 1], sep) + if s[|s| - 1] == sep then 1 else 0
  }

  lemma {:induction false} CountConcat(s: string, t: string, sep: char)
    ensures Count(s + t, sep) == Count(s, sep) + Count(t, sep)
    decreases |t|
  {
    if t == "" {
      assert s + t == s;
    } else {
      assert (s + t)[..|s + t| - 1] == s + t[..|t| - 1];
      CountConcat(s, t[..|t| - 1], sep);
    }
  }

  lemma {:induction false} CountFree(s: string, sep: char)
    ensures Count(s, sep) == 0 <==> Free(s, sep)
  {
    if s != "" {
      CountFree(s[..|s| - 1], sep);
      assert s == s[..|s| - 1] + [s[|s| - 1]];
    }
  }

  /** Joining adds one separator between two parts, so the parts are free of it exactly if there are no more than these. */
  lemma {:induction false} CountJoin(parts: seq<string>, sep: char)
    requires parts != []
    ensures Count(Join(parts, sep), sep) >= |parts| - 1
    ensures Count(Join(parts, sep), sep) == |parts| - 1 <==> AllFree(parts, sep)
  {
    CountFree(parts[0], sep);
    if |parts| > 1 {
      CountJoin(parts[1..], sep);
      CountConcat(parts[0] + [sep], Join(parts[1..], sep), sep);
      CountConcat(parts[0], [sep], sep);
      assert Count([sep], sep) == 1;
      assert forall i | 1 <= i < |parts| :: parts[i] == parts[1..][i - 1];
    }
  }

  /** Parts without the separator share their joined text with no other list of as many parts, whatever is in those. */
  lemma FreePartsAlone(a: seq<string>, b: seq<string>, sep: char)
    requires |a| == |b| > 0 && AllFree(a, sep) && Join(a, sep) == Join(b, sep)
    ensures a == b
  {
    CountJoin(a, sep);
    CountJoin(b, sep);
    JoinInjective(a, b, sep);
  }

  // ---------------------------------------------------------------- revisions

  /** The fields of a revision; the metadata as printed JSON, in which a NUL is escaped. */
  datatype Payload = Payload(code: string, kind: string, profile: string, title: string, body: string, metadata: string)

  function Fields(p: Payload): seq<string> {
    [p.code, p.kind, p.profile, p.title, p.body, p.metadata]
  }

  function PayloadPreimage(p: Payload): string {
    Join(Fields(p), '\0')
  }

  predicate NulFree(p: Payload) {
    AllFree(Fields(p), '\0')
  }

  /** A payload without NUL shares its preimage with no other payload, NUL in it or not. */
  lemma PayloadInjective(p: Payload, q: Payload)
    requires NulFree(p)
    ensures PayloadPreimage(p) == PayloadPreimage(q) <==> p == q
  {
    if PayloadPreimage(p) == PayloadPreimage(q) {
      FreePartsAlone(Fields(p), Fields(q), '\0');
      SameFields(p, q);
    }
  }

  lemma SameFields(p: Payload, q: Payload)
    requires Fields(p) == Fields(q)
    ensures p == q
  {
    assert Fields(p)[0] == p.code && Fields(p)[1] == p.kind && Fields(p)[2] == p.profile && Fields(p)[3] == p.title;
    assert Fields(p)[4] == p.body && Fields(p)[5] == p.metadata;
    assert Fields(q)[0] == q.code && Fields(q)[1] == q.kind && Fields(q)[2] == q.profile && Fields(q)[3] == q.title;
    assert Fields(q)[4] == q.body && Fields(q)[5] == q.metadata;
  }

  /** Title and body run into one text, between a head and the metadata. */
  function Text(p: Payload): string {
    p.title + ['\0'] + p.body
  }

  function Head(p: Payload): string {
    p.code + ['\0'] + (p.kind + ['\0'] + p.profile)
  }

  lemma PreimageParts(p: Payload)
    ensures PayloadPreimage(p) == Head(p) + ['\0'] + (Text(p) + ['\0'] + p.metadata)
  {
    var f := Fields(p);
    assert f[1..] == [p.kind, p.profile, p.title, p.body, p.metadata] && f[1..][1..] == [p.profile, p.title, p.body, p.metadata];
    assert f[1..][1..][1..] == [p.title, p.body, p.metadata] && f[1..][1..][1..][1..] == [p.body, p.metadata];
    assert [p.body, p.metadata][1..] == [p.metadata];
    assert Join([p.body, p.metadata], '\0') == p.body + ['\0'] + p.metadata;
    assert Join([p.title, p.body, p.metadata], '\0') == p.title + ['\0'] + (p.body + ['\0'] + p.metadata)
        == Text(p) + ['\0'] + p.metadata;
    assert Join(f[1..][1..], '\0') == p.profile + ['\0'] + (Text(p) + ['\0'] + p.metadata);
    assert Join(f[1..], '\0') == p.kind + ['\0'] + (p.profile + ['\0'] + (Text(p) + ['\0'] + p.metadata));
    assert Join(f, '\0') == p.code + ['\0'] + (p.kind + ['\0'] + (p.profile + ['\0'] + (Text(p) + ['\0'] + p.metadata)));
  }

  /** What every stored payload has: a title, a code and a type without NUL, and metadata printed without one. */
  predicate Proper(p: Payload) {
    p.title != "" && Free(p.code, '\0') && Free(p.kind, '\0') && Free(p.profile, '\0') && Free(p.metadata, '\0')
  }

  /** Another payload of the same code, type and metadata with the same preimage. */
  predicate Collides(p: Payload, q: Payload) {
    q != p && Proper(q) && PayloadPreimage(q) == PayloadPreimage(p)
  }

  /** The text after the last separator is determined. */
  lemma LastPart(u: string, x: string, v: string, y: string, sep: char)
    requires Free(x, sep) && Free(y, sep) && u + [sep] + x == v + [sep] + y
    ensures u == v && x == y
  {
    var s := u + [sep] + x;
    assert s[|u|] == sep && s[|v|] == sep;
    assert forall i | |u| < i < |s| :: s[i] == x[i - |u| - 1] && x[i - |u| - 1] in x;
    assert forall i | |v| < i < |s| :: s[i] == y[i - |v| - 1] && y[i - |v| - 1] in y;
    assert s[..|u|] == u && s[..|v|] == v;
    assert s[|u| + 1..] == x && s[|v| + 1..] == y;
  }

  lemma HeadInjective(p: Payload, u: string, q: Payload, v: string)
    requires Proper(p) && Proper(q) && Head(p) + ['\0'] + u == Head(q) + ['\0'] + v
    ensures p.code == q.code && p.kind == q.kind && p.profile == q.profile && u == v
  {
    var tail, other := p.profile + ['\0'] + u, q.profile + ['\0'] + v;
    assert Head(p) + ['\0'] + u == p.code + ['\0'] + (p.kind + ['\0'] + tail);
    assert Head(q) + ['\0'] + v == q.code + ['\0'] + (q.kind + ['\0'] + other);
    FirstPart(p.code, p.kind + ['\0'] + tail, q.code, q.kind + ['\0'] + other, '\0');
    FirstPart(p.kind, tail, q.kind, other, '\0');
    FirstPart(p.profile, u, q.profile, v, '\0');
  }

  /** Proper payloads have the same preimage exactly if they agree on everything but where the title ends. */
  lemma PreimageExact(p: Payload, q: Payload)
    requires Proper(p) && Proper(q)
    ensures PayloadPreimage(p) == PayloadPreimage(q) <==> q == p.(title := q.title, body := q.body) && Text(p) == Text(q)
  {
    PreimageParts(p);
    PreimageParts(q);
    if PayloadPreimage(p) == PayloadPreimage(q) {
      HeadInjective(p, Text(p) + ['\0'] + p.metadata, q, Text(q) + ['\0'] + q.metadata);
      LastPart(Text(p), p.metadata, Text(q), q.metadata, '\0');
    }
  }

  /** The payload whose title ends at the i-th character of the text. */
  function EndTitleAt(p: Payload, i: nat): Payload
    requires i < |Text(p)|
  {
    p.(title := Text(p)[..i], body := Text(p)[i + 1..])
  }

  lemma EndedElsewhere(p: Payload, i: nat)
    requires Proper(p) && 1 <= i < |Text(p)| && i != |p.title| && Text(p)[i] == '\0'
    ensures Collides(p, EndTitleAt(p, i))
  {
    var q := EndTitleAt(p, i);
    assert Text(q) == Text(p);
    PreimageExact(p, q);
    assert |q.title| == i;
  }

  lemma OnlyOneEnd(p: Payload, q: Payload)
    requires Text(p) == Text(q) && q.title != "" && p.title != "" && Free(p.title[1..], '\0') && Free(p.body, '\0')
    ensures p.title == q.title && p.body == q.body
  {
    var s, n := Text(p), |q.title|;
    forall k | 1 <= k < |p.title| ensures s[k] != '\0' { assert s[k] == p.title[1..][k - 1]; }
    forall k | |p.title| < k < |s| ensures s[k] != '\0' { assert s[k] == p.body[k - |p.title| - 1]; }
    assert s[n] == Text(q)[n] == '\0';
    assert s[..n] == p.title && Text(q)[..n] == q.title;
    assert s[n + 1..] == p.body && Text(q)[n + 1..] == q.body;
  }

  /** Exactly the proper payloads with a NUL in the body, or in the title after its first character, collide with another. */
  lemma NulBreaksInjectivity(p: Payload)
    requires Proper(p)
    ensures (exists q :: Collides(p, q)) <==> '\0' in p.title[1..] || '\0' in p.body
  {
    if q :| Collides(p, q) {
      PreimageExact(p, q);
      if Free(p.title[1..], '\0') && Free(p.body, '\0') { OnlyOneEnd(p, q); }
    }
    if i :| 0 <= i < |p.title[1..]| && p.title[1..][i] == '\0' {
      assert Text(p)[i + 1] == p.title[1..][i];
      EndedElsewhere(p, i + 1);
    }
    if i :| 0 <= i < |p.body| && p.body[i] == '\0' {
      assert Text(p)[|p.title| + 1 + i] == p.body[i];
      EndedElsewhere(p, |p.title| + 1 + i);
    }
  }

  lemma TitleEndsEarlier(p: Payload, x: string, y: string)
    requires Proper(p) && x != "" && p.title == x + ['\0'] + y
    ensures Collides(p, p.(title := x, body := y + ['\0'] + p.body))
  {
    assert Text(p) == x + ['\0'] + (y + ['\0'] + p.body);
    EndedElsewhere(p, |x|);
    assert EndTitleAt(p, |x|) == p.(title := x, body := y + ['\0'] + p.body);
  }

  /** Two requirements that differ in title and body and have the same preimage. */
  lemma NulCollision(p: Payload)
    requires p == Payload("A", "requirement", "core:requirement", "x\0y", "z", "{}")
    ensures Proper(p) && Collides(p, p.(title := "x", body := "y\0z"))
  {
    assert "x\0y" == "x" + ['\0'] + "y" && "y\0z" == "y" + ['\0'] + "z";
    TitleEndsEarlier(p, "x", "y");
  }

  // ---------------------------------------------------------------- sorted lists

  /** The order of strings: lexicographic by character. */
  predicate Below(a: string, b: string) {
    a == [] || (b != [] && (a[0] < b[0] || (a[0] == b[0] && Below(a[1..], b[1..]))))
  }

  lemma {:induction false} BelowTotal(a: string, b: string)
    ensures Below(a, b) || Below(b, a)
    ensures Below(a, b) && Below(b, a) ==> a == b
  {
    if a != [] && b != [] && a[0] == b[0] {
      BelowTotal(a[1..], b[1..]);
      assert a == [a[0]] + a[1..] && b == [b[0]] + b[1..];
    }
  }

  lemma {:induction false} BelowTransitive(a: string, b: string, c: string)
    requires Below(a, b) && Below(b, c)
    ensures Below(a, c)
  {
    if a != [] && b != [] && c != [] && a[0] == b[0] == c[0] { BelowTransitive(a[1..], b[1..], c[1..]); }
  }

  /** The first character in which two strings differ decides, and a string comes before its continuations. */
  lemma {:induction false} FirstDifferenceDecides(common: string, a: char, b: char, x: string, y: string)
    requires a < b
    ensures Below(common + [a] + x, common + [b] + y) && !Below(common + [b] + y, common + [a] + x)
    ensures Below(common, common + x)
  {
    if common != [] {
      FirstDifferenceDecides(common[1..], a, b, x, y);
      assert (common + [a] + x)[1..] == common[1..] + [a] + x && (common + [b] + y)[1..] == common[1..] + [b] + y;
      assert (common + x)[1..] == common[1..] + x;
    }
  }

  predicate Sorted(s: seq<string>) {
    forall i, j | 0 <= i < j < |s| :: Below(s[i], s[j])
  }

  function Insert(s: seq<string>, x: string): seq<string> {
    if s == [] then [x] else if Below(x, s[0]) then [x] + s else [s[0]] + Insert(s[1..], x)
  }

  function Sort(s: seq<string>): seq<string> {
    if s == [] then [] else Insert(Sort(s[1..]), s[0])
  }

  lemma {:induction false} InsertAdds(s: seq<string>, x: string)
    ensures multiset(Insert(s, x)) == multiset(s) + multiset{x}
  {
    if s != [] {
      assert s == [s[0]] + s[1..];
      InsertAdds(s[1..], x);
    }
  }

  lemma {:induction false} InsertSorted(s: seq<string>, x: string)
    requires Sorted(s)
    ensures Sorted(Insert(s, x))
  {
    if s != [] && Below(x, s[0]) {
      forall j | 0 < j < |s| ensures Below(x, s[j]) { BelowTransitive(x, s[0], s[j]); }
    } else if s != [] {
      var rest := Insert(s[1..], x);
      InsertSorted(s[1..], x);
      InsertAdds(s[1..], x);
      BelowTotal(x, s[0]);
      forall j | 0 <= j < |rest| ensures Below(s[0], rest[j]) {
        assert rest[j] in multiset(rest);
        assert rest[j] == x || rest[j] in s[1..];
      }
    }
  }

  /** Sorting puts the same strings in order. */
  lemma {:induction false} SortIsSorted(s: seq<string>)
    ensures Sorted(Sort(s)) && multiset(Sort(s)) == multiset(s)
  {
    if s != [] {
      assert s == [s[0]] + s[1..];
      SortIsSorted(s[1..]);
      InsertSorted(Sort(s[1..]), s[0]);
      InsertAdds(Sort(s[1..]), s[0]);
    }
  }

  lemma LeastFirst(a: seq<string>, b: seq<string>)
    requires a != [] && b != [] && Sorted(a) && Sorted(b) && multiset(a) == multiset(b)
    ensures a[0] == b[0]
  {
    assert a[0] in multiset(b) && b[0] in multiset(a);
    var i :| 0 <= i < |b| && b[i] == a[0];
    var j :| 0 <= j < |a| && a[j] == b[0];
    if i > 0 && j > 0 { BelowTotal(a[0], b[0]); }
  }

  lemma RestOf(a: seq<string>)
    requires a != []
    ensures multiset(a[1..]) == multiset(a) - multiset{a[0]}
  {
    assert a == [a[0]] + a[1..];
  }

  /** There is one sorted arrangement, so any correct sort gives this one. */
  lemma {:induction false} SortedUnique(a: seq<string>, b: seq<string>)
    requires Sorted(a) && Sorted(b) && multiset(a) == multiset(b)
    ensures a == b
  {
    assert |a| == |multiset(a)| == |multiset(b)| == |b|;
    if a != [] {
      LeastFirst(a, b);
      RestOf(a);
      RestOf(b);
      SortedUnique(a[1..], b[1..]);
      assert a == [a[0]] + a[1..] && b == [b[0]] + b[1..];
    }
  }

  // ---------------------------------------------------------------- elements of a composition

  datatype Element = Element(product: string, revision: string, hash: string)

  function Line(e: Element): string {
    Join([e.product, e.revision, e.hash], ':')
  }

  function Lines(es: seq<Element>): seq<string> {
    if es == [] then [] else [Line(es[0])] + Lines(es[1..])
  }

  function ElementsPreimage(es: seq<Element>): string {
    Join(Sort(Lines(es)), '\n')
  }

  predicate Plain(e: Element) {
    && AllFree([e.product, e.revision, e.hash], ':')
    && AllFree([e.product, e.revision, e.hash], '\n')
  }

  predicate AllPlain(es: seq<Element>) {
    forall i | 0 <= i < |es| :: Plain(es[i])
  }

  lemma LineOf(e: Element)
    ensures Line(e) == e.product + [':'] + (e.revision + [':'] + e.hash)
  {
    assert [e.product, e.revision, e.hash][1..] == [e.revision, e.hash];
    assert [e.revision, e.hash][1..] == [e.hash];
    assert Join([e.revision, e.hash], ':') == e.revision + [':'] + Join([e.hash], ':');
  }

  lemma LineInjective(e: Element, f: Element)
    requires Plain(e) && Plain(f) && Line(e) == Line(f)
    ensures e == f
  {
    var a, b := [e.product, e.revision, e.hash], [f.product, f.revision, f.hash];
    JoinInjective(a, b, ':');
    assert a[0] == b[0] && a[1] == b[1] && a[2] == b[2];
  }

  lemma LineIsOneLine(e: Element)
    requires Plain(e)
    ensures Free(Line(e), '\n') && Line(e) != ""
  {
    LineOf(e);
    assert Free([e.product, e.revision, e.hash][0], '\n') && Free([e.product, e.revision, e.hash][1], '\n')
           && Free([e.product, e.revision, e.hash][2], '\n');
  }

  /** Among plain elements each line counts its element. */
  lemma {:induction false} LinesCount(es: seq<Element>, e: Element)
    requires AllPlain(es) && Plain(e)
    ensures multiset(Lines(es))[Line(e)] == multiset(es)[e]
  {
    if es != [] {
      assert es == [es[0]] + es[1..];
      LinesCount(es[1..], e);
      if Line(es[0]) == Line(e) { LineInjective(es[0], e); }
    }
  }

  lemma {:induction false} LineOfSome(es: seq<Element>, s: string)
    requires s in Lines(es)
    ensures exists i | 0 <= i < |es| :: Line(es[i]) == s
  {
    if s != Line(es[0]) {
      LineOfSome(es[1..], s);
      var i :| 0 <= i < |es[1..]| && Line(es[1..][i]) == s;
      assert es[1..][i] == es[i + 1];
    }
  }

  lemma {:induction false} LinesFree(es: seq<Element>)
    requires AllPlain(es)
    ensures |Lines(es)| == |es| && forall s | s in Lines(es) :: Free(s, '\n') && s != ""
  {
    if es != [] {
      LineIsOneLine(es[0]);
      LinesFree(es[1..]);
    }
  }

  lemma LinesDetermine(a: seq<Element>, b: seq<Element>)
    requires AllPlain(a) && AllPlain(b)
    ensures multiset(Lines(a)) == multiset(Lines(b)) <==> multiset(a) == multiset(b)
  {
    if multiset(Lines(a)) == multiset(Lines(b)) {
      forall e ensures multiset(a)[e] == multiset(b)[e] {
        if Plain(e) {
          LinesCount(a, e);
          LinesCount(b, e);
        } else {
          assert e !in a && e !in b;
        }
      }
    }
    if multiset(a) == multiset(b) {
      forall s ensures multiset(Lines(a))[s] == multiset(Lines(b))[s] {
        if s in Lines(a) { LineCounted(a, b, s); }
        if s in Lines(b) { LineCounted(b, a, s); }
      }
    }
  }

  lemma LineCounted(a: seq<Element>, b: seq<Element>, s: string)
    requires AllPlain(a) && AllPlain(b) && multiset(a) == multiset(b) && s in Lines(a)
    ensures multiset(Lines(a))[s] == multiset(Lines(b))[s]
  {
    LineOfSome(a, s);
    var i :| 0 <= i < |a| && Line(a[i]) == s;
    LinesCount(a, a[i]);
    LinesCount(b, a[i]);
  }

  lemma JoinEmpty(parts: seq<string>, sep: char)
    requires forall i | 0 <= i < |parts| :: parts[i] != ""
    ensures Join(parts, sep) == "" <==> parts == []
  {
    if |parts| > 1 {
      assert Join(parts, sep) == parts[0] + [sep] + Join(parts[1..], sep);
      assert |Join(parts, sep)| > 0;
    } else if |parts| == 1 {
      assert Join(parts, sep) == parts[0];
    }
  }

  /** The order of the elements does not matter and nothing else is lost: for fields without ':' and newline
      two lists have the same preimage exactly if they hold the same elements, equally often. */
  lemma ElementsFaithful(a: seq<Element>, b: seq<Element>)
    requires AllPlain(a) && AllPlain(b)
    ensures ElementsPreimage(a) == ElementsPreimage(b) <==> multiset(a) == multiset(b)
  {
    var s, t := Sort(Lines(a)), Sort(Lines(b));
    SortIsSorted(Lines(a));
    SortIsSorted(Lines(b));
    LinesFree(a);
    LinesFree(b);
    LinesDetermine(a, b);
    SortedLinesFree(Lines(a));
    SortedLinesFree(Lines(b));
    if multiset(a) == multiset(b) { SortedUnique(s, t); }
    if Join(s, '\n') == Join(t, '\n') {
      JoinEmpty(s, '\n');
      JoinEmpty(t, '\n');
      if s != [] { JoinInjective(s, t, '\n'); }
      assert s == t;
    }
  }

  lemma SortedLinesFree(lines: seq<string>)
    requires forall s | s in lines :: Free(s, '\n') && s != ""
    ensures AllFree(Sort(lines), '\n') && forall i | 0 <= i < |Sort(lines)| :: Sort(lines)[i] != ""
  {
    SortIsSorted(lines);
    forall i | 0 <= i < |Sort(lines)| ensures Free(Sort(lines)[i], '\n') && Sort(lines)[i] != "" {
      assert Sort(lines)[i] in multiset(Sort(lines));
      assert Sort(lines)[i] in multiset(lines);
    }
  }
}
