/** The strong entity tag of a tenant's resolved configuration: the text fed to the
    hash, its injectivity, and its independence of row order. */
module Etag {
  import opened Wrappers
  import opened Hashing
  import opened Text
  import opened Sorting
  import Provisioning
  import opened Resources

  type Tag = Digest

  // ----- Identifiers as text -----

  function HexText(ds: seq<nat>): (s: string)
    requires forall i :: 0 <= i < |ds| ==> ds[i] < 16
    ensures |s| == |ds| && forall i :: 0 <= i < |s| ==> s[i] == HEX[ds[i]]
  {
    if ds == [] then "" else [HEX[ds[0]]] + HexText(ds[1..])
  }

  /** uuid.UUID.String. */
  function UuidText(id: nat): string {
    var h := HexText(Nibbles(id, 32));
    h[..8] + "-" + h[8..12] + "-" + h[12..16] + "-" + h[16..20] + "-" + h[20..]
  }

  /** The sixteen bytes themselves, as %s prints a byte array. */
  function RawText(id: nat): (s: string)
    ensures |s| == 16
  {
    var ds := Nibbles(id, 32);
    seq(16, i requires 0 <= i < 16 => (16 * ds[2 * i] + ds[2 * i + 1]) as char)
  }

  lemma HexDigitsDiffer(a: nat, b: nat)
    requires a < 16 && b < 16 && HEX[a] == HEX[b]
    ensures a == b
  {
  }

  lemma UuidTextInjective(m: nat, n: nat)
    requires IsUuid(m) && IsUuid(n) && UuidText(m) == UuidText(n)
    ensures m == n
  {
    var a, b := HexText(Nibbles(m, 32)), HexText(Nibbles(n, 32));
    var s, t := UuidText(m), UuidText(n);
    forall i | 0 <= i < 32 ensures a[i] == b[i] {
      var at := if i < 8 then i
        else if i < 12 then i + 1 else if i < 16 then i + 2 else if i < 20 then i + 3 else i + 4;
      assert s[at] == a[i] && t[at] == b[i];
    }
    forall i | 0 <= i < 32 ensures Nibbles(m, 32)[i] == Nibbles(n, 32)[i] {
      assert a[i] == HEX[Nibbles(m, 32)[i]] && b[i] == HEX[Nibbles(n, 32)[i]];
      HexDigitsDiffer(Nibbles(m, 32)[i], Nibbles(n, 32)[i]);
    }
    NibblesInjective(m, n, 32);
  }

  lemma UuidTextHas(id: nat, c: char)
    requires c in UuidText(id)
    ensures c == '-' || c in HEX
  {
    var h := HexText(Nibbles(id, 32));
    assert forall i :: 0 <= i < 32 ==> h[i] in HEX;
  }

  lemma RawTextInjective(m: nat, n: nat)
    requires IsUuid(m) && IsUuid(n) && RawText(m) == RawText(n)
    ensures m == n
  {
    var a, b := Nibbles(m, 32), Nibbles(n, 32);
    forall i | 0 <= i < 16 ensures a[2 * i] == b[2 * i] && a[2 * i + 1] == b[2 * i + 1] {
      assert RawText(m)[i] == RawText(n)[i];
      assert 16 * a[2 * i] + a[2 * i + 1] == 16 * b[2 * i] + b[2 * i + 1];
    }
    forall k | 0 <= k < 32 ensures a[k] == b[k] {
      assert k == 2 * (k / 2) || k == 2 * (k / 2) + 1;
    }
    NibblesInjective(m, n, 32);
  }

  // ----- The hashed text -----

  function StatusText(active: bool): string { if active then "active" else "inactive" }

  /** The parts separated by colons, and a newline. */
  function Joined(parts: seq<string>): string
    requires parts != []
  {
    if |parts| == 1 then parts[0] + "\n" else parts[0] + ":" + Joined(parts[1..])
  }

  function TenantLine(id: nat, t: Tenant, n: nat): string {
    Joined(["t", UuidText(id), t.slug, Itoa(t.updatedAt), Itoa(n)])
  }

  function ResourceParts(h: Header): seq<string> {
    ["r", UuidText(h.id), StatusText(h.resource.active), Itoa(h.resource.updatedAt), "d",
     UuidText(h.resource.definition), h.definitionKey, Itoa(h.definitionUpdatedAt)]
  }

  function ResourceLine(h: Header): string {
    Joined(ResourceParts(h))
  }

  /** Written only for a linked resource. */
  function SourceLine(h: Header): string {
    if h.resource.source.None? then ""
    else "s:" + (RawText(h.resource.source.value) + (":" + Joined([Itoa(h.sourceUpdatedAt)])))
  }

  function Lines(headers: seq<Header>): string {
    if headers == [] then "" else ResourceLine(headers[0]) + (SourceLine(headers[0]) + Lines(headers[1..]))
  }

  predicate IdBefore(a: Header, b: Header) { TextBefore(UuidText(a.id), UuidText(b.id)) }

  function SortedHeaders(headers: seq<Header>): seq<Header> {
    Sort(headers, (a: Header, b: Header) => IdBefore(a, b))
  }

  function TagText(id: nat, t: Tenant, headers: seq<Header>): string {
    TenantLine(id, t, |headers|) + Lines(SortedHeaders(headers))
  }

  method ComputeETag(id: nat, t: Tenant, headers: seq<Header>) returns (tag: Tag)
    ensures tag == Sha256(TagText(id, t, headers))
  {
    var sorted := SortedHeaders(headers);
    SortKeeps(headers, (a: Header, b: Header) => IdBefore(a, b));
    SameMembers(sorted, headers);
    var h := TenantLine(id, t, |sorted|);
    assert sorted[0..] == sorted;
    for i := 0 to |sorted|
      invariant h + Lines(sorted[i..]) == TagText(id, t, headers)
    {
      assert sorted[i..][1..] == sorted[i + 1..];
      ghost var before := h;
      h := h + ResourceLine(sorted[i]);
      if sorted[i].resource.source.Some? {
        h := h + SourceLine(sorted[i]);
      }
      Regroup(before, ResourceLine(sorted[i]), SourceLine(sorted[i]), Lines(sorted[i + 1..]));
    }
    return Sha256(h);
  }

  lemma Regroup(a: string, b: string, c: string, d: string)
    ensures a + (b + (c + d)) == (a + b + c) + d
    ensures c == "" ==> a + b + c == a + b
  {
  }

  // ----- Order independence -----

  ghost predicate ProperIds(headers: seq<Header>) {
    && (forall i :: 0 <= i < |headers| ==> IsUuid(headers[i].id))
    && (forall i, j :: 0 <= i < j < |headers| ==> headers[i].id != headers[j].id)
  }

  lemma IdsOrder(headers: seq<Header>)
    requires ProperIds(headers)
    ensures Distinct(headers) && Orders((a: Header, b: Header) => IdBefore(a, b), Members(headers))
  {
    var less := (a: Header, b: Header) => IdBefore(a, b);
    forall x | x in Members(headers) ensures !less(x, x) {
      TextOrderIsTotal(UuidText(x.id), UuidText(x.id));
    }
    forall x, y | x in Members(headers) && y in Members(headers) && x != y ensures less(x, y) || less(y, x) {
      if UuidText(x.id) == UuidText(y.id) {
        UuidTextInjective(x.id, y.id);
      }
      TextOrderIsTotal(UuidText(x.id), UuidText(y.id));
    }
    forall x, y, z | x in Members(headers) && y in Members(headers) && z in Members(headers) && less(x, y) && less(y, z)
      ensures less(x, z)
    {
      TextOrderIsTransitive(UuidText(x.id), UuidText(y.id), UuidText(z.id));
    }
  }

  /** The order in which the query returned the resources does not matter. */
  lemma TagIgnoresOrder(id: nat, t: Tenant, headers: seq<Header>, others: seq<Header>)
    requires ProperIds(headers) && ProperIds(others) && multiset(headers) == multiset(others)
    ensures TagText(id, t, headers) == TagText(id, t, others)
  {
    SameMembers(headers, others);
    IdsOrder(headers);
    IdsOrder(others);
    SortForgetsOrder(headers, others, (a: Header, b: Header) => IdBefore(a, b));
  }

  // ----- Injectivity -----

  /** What the tag says of one resource. */
  datatype Stamp = Stamp(id: nat, active: bool, updatedAt: int, definition: nat, definitionKey: string,
    definitionUpdatedAt: int, source: Option<(nat, int)>)

  function StampOf(h: Header): Stamp {
    Stamp(h.id, h.resource.active, h.resource.updatedAt, h.resource.definition, h.definitionKey, h.definitionUpdatedAt,
          if h.resource.source.Some? then Some((h.resource.source.value, h.sourceUpdatedAt)) else None)
  }

  predicate ProperHeader(h: Header) {
    IsUuid(h.id) && IsUuid(h.resource.definition) && (h.resource.source.Some? ==> IsUuid(h.resource.source.value))
    && Plain(h.definitionKey)
  }

  /** Text with neither delimiter. */
  predicate Plain(s: string) { ':' !in s && '\n' !in s }

  lemma PartsArePlain(id: nat, n: int, active: bool)
    ensures Plain(UuidText(id)) && Plain(Itoa(n)) && Plain(StatusText(active))
  {
    if ':' in UuidText(id) {
      UuidTextHas(id, ':');
    }
    if '\n' in UuidText(id) {
      UuidTextHas(id, '\n');
    }
    ItoaHasNo(n, ':');
    ItoaHasNo(n, '\n');
  }

  ghost predicate AllPlain(parts: seq<string>) {
    forall i :: 0 <= i < |parts| ==> Plain(parts[i])
  }

  /** A line determines its parts and what follows it. */
  lemma {:induction false} JoinedInjective(p: seq<string>, q: seq<string>, x: string, y: string)
    requires |p| == |q| > 0 && AllPlain(p) && AllPlain(q) && Joined(p) + x == Joined(q) + y
    ensures p == q && x == y
    decreases |p|
  {
    if |p| == 1 {
      SplitAtDelimiter(p[0], q[0], '\n', x, y);
    } else {
      var u, v := Joined(p[1..]) + x, Joined(q[1..]) + y;
      assert Joined(p) + x == p[0] + [':'] + u && Joined(q) + y == q[0] + [':'] + v;
      SplitAtDelimiter(p[0], q[0], ':', u, v);
      JoinedInjective(p[1..], q[1..], x, y);
      assert p == [p[0]] + p[1..] && q == [q[0]] + q[1..];
    }
  }

  lemma TenantLineInjective(id: nat, t: Tenant, n: nat, x: string, jd: nat, u: Tenant, m: nat, y: string)
    requires IsUuid(id) && IsUuid(jd) && Plain(t.slug) && Plain(u.slug)
    requires TenantLine(id, t, n) + x == TenantLine(jd, u, m) + y
    ensures id == jd && t.slug == u.slug && t.updatedAt == u.updatedAt && n == m && x == y
  {
    var p, q := ["t", UuidText(id), t.slug, Itoa(t.updatedAt), Itoa(n)],
      ["t", UuidText(jd), u.slug, Itoa(u.updatedAt), Itoa(m)];
    PartsArePlain(id, t.updatedAt, true);
    PartsArePlain(jd, u.updatedAt, true);
    PartsArePlain(id, n, true);
    PartsArePlain(jd, m, true);
    hide Joined;
    JoinedInjective(p, q, x, y);
    assert p[1] == q[1] && p[2] == q[2] && p[3] == q[3] && p[4] == q[4];
    UuidTextInjective(id, jd);
    ItoaInjective(t.updatedAt, u.updatedAt);
    ItoaInjective(n, m);
  }

  lemma ResourcePartsArePlain(h: Header)
    requires ProperHeader(h)
    ensures AllPlain(ResourceParts(h))
  {
    PartsArePlain(h.id, h.resource.updatedAt, h.resource.active);
    PartsArePlain(h.resource.definition, h.definitionUpdatedAt, true);
  }

  lemma ResourceLineInjective(g: Header, h: Header, x: string, y: string)
    requires ProperHeader(g) && ProperHeader(h) && ResourceLine(g) + x == ResourceLine(h) + y
    ensures StampOf(g).(source := None) == StampOf(h).(source := None) && x == y
  {
    var p, q := ResourceParts(g), ResourceParts(h);
    ResourcePartsArePlain(g);
    ResourcePartsArePlain(h);
    JoinedInjective(p, q, x, y);
    assert p[1] == q[1] && p[2] == q[2] && p[3] == q[3] && p[5] == q[5] && p[6] == q[6] && p[7] == q[7];
    hide UuidText;
    UuidTextInjective(g.id, h.id);
    UuidTextInjective(g.resource.definition, h.resource.definition);
    ItoaInjective(g.resource.updatedAt, h.resource.updatedAt);
    ItoaInjective(g.definitionUpdatedAt, h.definitionUpdatedAt);
    assert StatusText(true)[0] != StatusText(false)[0];
  }

  lemma StartsWith(headers: seq<Header>)
    ensures Lines(headers) == "" || Lines(headers)[0] == 'r'
  {
  }

  lemma FixedPrefix(p: string, q: string, x: string, y: string)
    requires |p| == |q| && p + x == q + y
    ensures p == q && x == y
  {
    assert (p + x)[..|p|] == p && (q + y)[..|q|] == q;
    assert (p + x)[|p|..] == x && (q + y)[|q|..] == y;
  }

  lemma SourcesAgree(source: nat, m: int, x: string, other: nat, n: int, y: string)
    requires IsUuid(source) && IsUuid(other)
    requires "s:" + (RawText(source) + (":" + Joined([Itoa(m)]))) + x ==
      "s:" + (RawText(other) + (":" + Joined([Itoa(n)]))) + y
    ensures source == other && m == n && x == y
  {
    hide RawText;
    hide Itoa;
    hide Joined;
    var a, b, u, v := RawText(source), RawText(other), Joined([Itoa(m)]), Joined([Itoa(n)]);
    assert "s:" + (a + (":" + u)) + x == ("s:" + a + ":") + (u + x);
    assert "s:" + (b + (":" + v)) + y == ("s:" + b + ":") + (v + y);
    FixedPrefix("s:" + a + ":", "s:" + b + ":", u + x, v + y);
    assert ("s:" + a + ":")[2..18] == a && ("s:" + b + ":")[2..18] == b;
    RawTextInjective(source, other);
    PartsArePlain(0, m, true);
    PartsArePlain(0, n, true);
    JoinedInjective([Itoa(m)], [Itoa(n)], x, y);
    assert [Itoa(m)][0] == [Itoa(n)][0];
    ItoaInjective(m, n);
  }

  lemma SourceLineInjective(g: Header, h: Header, rest: seq<Header>, others: seq<Header>)
    requires ProperHeader(g) && ProperHeader(h) && SourceLine(g) + Lines(rest) == SourceLine(h) + Lines(others)
    ensures StampOf(g).source == StampOf(h).source && Lines(rest) == Lines(others)
  {
    StartsWith(rest);
    StartsWith(others);
    hide RawText;
    hide Itoa;
    hide Joined;
    hide Lines;
    SourceLineShows(g, rest);
    SourceLineShows(h, others);
    if g.resource.source.Some? {
      SourcesAgree(g.resource.source.value, g.sourceUpdatedAt, Lines(rest), h.resource.source.value, h.sourceUpdatedAt,
        Lines(others));
    }
  }

  lemma SourceLineShows(h: Header, rest: seq<Header>)
    ensures var t := SourceLine(h) + Lines(rest);
      if h.resource.source.Some? then t != "" && t[0] == 's' else t == Lines(rest)
  {
  }

  ghost predicate ProperHeaders(headers: seq<Header>) {
    forall i :: 0 <= i < |headers| ==> ProperHeader(headers[i])
  }

  function Stamps(headers: seq<Header>): (s: seq<Stamp>)
    ensures |s| == |headers| && forall i :: 0 <= i < |s| ==> s[i] == StampOf(headers[i])
  {
    if headers == [] then [] else [StampOf(headers[0])] + Stamps(headers[1..])
  }

  lemma {:induction false} LinesInjective(a: seq<Header>, b: seq<Header>)
    requires |a| == |b| && ProperHeaders(a) && ProperHeaders(b) && Lines(a) == Lines(b)
    ensures Stamps(a) == Stamps(b)
    decreases |a|
  {
    if a != [] {
      hide ResourceLine;
      hide SourceLine;
      hide ProperHeader;
      hide StampOf;
      assert ProperHeader(a[0]) && ProperHeader(b[0]);
      ResourceLineInjective(a[0], b[0], SourceLine(a[0]) + Lines(a[1..]), SourceLine(b[0]) + Lines(b[1..]));
      SourceLineInjective(a[0], b[0], a[1..], b[1..]);
      LinesInjective(a[1..], b[1..]);
      assert StampOf(a[0]) == StampOf(b[0]) by {
        assert StampOf(a[0]).(source := StampOf(b[0]).source) == StampOf(a[0]);
      }
    }
  }

  lemma StampsOfSorted(headers: seq<Header>)
    ensures multiset(SortedHeaders(headers)) == multiset(headers)
    ensures |SortedHeaders(headers)| == |headers| && Members(SortedHeaders(headers)) == Members(headers)
  {
    SortKeeps(headers, (a: Header, b: Header) => IdBefore(a, b));
    SameMembers(SortedHeaders(headers), headers);
  }

  ghost predicate StampedIn(h: Header, headers: seq<Header>) {
    exists i :: 0 <= i < |headers| && StampOf(headers[i]) == StampOf(h)
  }

  /** Equal tags mean the same tenant, slug and stamps: the tenant's, and those of the
      same resources, definitions and sources. */
  lemma TagIsInjective(id: nat, t: Tenant, headers: seq<Header>, jd: nat, u: Tenant, others: seq<Header>)
    requires IsUuid(id) && IsUuid(jd) && Plain(t.slug) && Plain(u.slug) && ProperHeaders(headers)
    requires ProperHeaders(others)
    requires TagText(id, t, headers) == TagText(jd, u, others)
    ensures id == jd && t.slug == u.slug && t.updatedAt == u.updatedAt
    ensures forall i :: 0 <= i < |headers| ==> StampedIn(headers[i], others)
    ensures forall i :: 0 <= i < |others| ==> StampedIn(others[i], headers)
  {
    var a, b := SortedHeaders(headers), SortedHeaders(others);
    StampsOfSorted(headers);
    StampsOfSorted(others);
    hide SortedHeaders;
    hide ProperHeader;
    hide StampOf;
    TenantLineInjective(id, t, |headers|, Lines(a), jd, u, |others|, Lines(b));
    SortedIsProper(headers, a);
    SortedIsProper(others, b);
    LinesInjective(a, b);
    SameStamps(headers, a, b, others);
    SameStamps(others, b, a, headers);
  }

  lemma SortedIsProper(headers: seq<Header>, sorted: seq<Header>)
    requires ProperHeaders(headers) && Members(sorted) == Members(headers)
    ensures ProperHeaders(sorted)
  {
    forall i | 0 <= i < |sorted| ensures ProperHeader(sorted[i]) {
      assert sorted[i] in Members(sorted);
      var k :| 0 <= k < |headers| && headers[k] == sorted[i];
    }
  }

  lemma SameStamps(headers: seq<Header>, a: seq<Header>, b: seq<Header>, others: seq<Header>)
    requires Members(a) == Members(headers) && Members(b) == Members(others) && Stamps(a) == Stamps(b)
    ensures forall i :: 0 <= i < |headers| ==> StampedIn(headers[i], others)
  {
    hide StampOf;
    assert |a| == |Stamps(a)| == |Stamps(b)| == |b|;
    forall i | 0 <= i < |headers| ensures StampedIn(headers[i], others) {
      assert headers[i] in Members(headers);
      var k :| 0 <= k < |a| && a[k] == headers[i];
      assert Stamps(a)[k] == Stamps(b)[k];
      assert b[k] in Members(b);
      var m :| 0 <= m < |others| && others[m] == b[k];
    }
  }
}
