/**
 * Namecoin identifiers (`parseIdentifier`, src/resolver.js): five spellings of a name and a local part.
 * Trimming and lower-casing come first and are left to the caller. Lengths are JavaScript's: UTF-16
 * units for the stem, UTF-8 bytes for the whole name.
 */
module Identifier {
  import opened Wrappers
  import Failover

  const MAX_STEM_LEN := 64
  const MAX_NAMECOIN_NAME_BYTES := 67

  /** The Namecoin name and the local part. */
  datatype Name = Name(namecoin: string, local: string)

  function Units(s: string): nat {
    if s == "" then 0 else (if s[0] as int < 0x1_0000 then 1 else 2) + Units(s[1..])
  }

  function Utf8Bytes(s: string): nat {
    if s == "" then 0
    else
      var c := s[0] as int;
      (if c < 0x80 then 1 else if c < 0x800 then 2 else if c < 0x1_0000 then 3 else 4) + Utf8Bytes(s[1..])
  }

  /** The regular expression class `\s`. */
  predicate Space(c: char) {
    var i := c as int;
    || 0x09 <= i <= 0x0d || i == 0x20 || i == 0xa0 || i == 0x1680 || 0x2000 <= i <= 0x200a
    || i == 0x2028 || i == 0x2029 || i == 0x202f || i == 0x205f || i == 0x3000 || i == 0xfeff
  }

  /** What follows the namespace. */
  function Stem(name: string): Option<string> {
    if "d/" <= name then Some(name[2..])
    else if "id/" <= name then Some(name[3..])
    else None
  }

  /** `d/` or `id/` and a stem without slash or white space. */
  predicate Namespaced(name: string) {
    Stem(name).Some? && Stem(name).value != ""
    && forall c | c in Stem(name).value :: c != '/' && !Space(c)
  }

  predicate DotBit(domain: string) {
    |domain| >= 4 && domain[|domain| - 4..] == ".bit"
  }

  function LastAt(s: string): (i: Option<nat>)
    ensures i.None? ==> '@' !in s
    ensures i.Some? ==> i.value < |s| && s[i.value] == '@' && '@' !in s[i.value + 1..]
  {
    if s == "" then None
    else if s[|s| - 1] == '@' then Some(|s| - 1)
    else LastAt(s[..|s| - 1])
  }

  predicate InBounds(namecoin: string) {
    && Stem(namecoin).Some?
    && 0 < Units(Stem(namecoin).value) <= MAX_STEM_LEN
    && Utf8Bytes(namecoin) <= MAX_NAMECOIN_NAME_BYTES
  }

  function Finalize(n: Name): Option<Name> {
    if InBounds(n.namecoin) then Some(n) else None
  }

  function FromDotBit(domain: string, local: string): Option<Name>
    requires DotBit(domain)
  {
    var stem := domain[..|domain| - 4];
    if stem == "" || '/' in stem || '.' in stem then None else Finalize(Name("d/" + stem, local))
  }

  /** What follows the last `@`. */
  function FromDomain(domain: string, local: string): Option<Name> {
    if DotBit(domain) then FromDotBit(domain, local)
    else if Namespaced(domain) then Finalize(Name(domain, local))
    else None
  }

  function ParseIdentifier(id: string): Option<Name> {
    if Namespaced(id) && '@' !in id then Finalize(Name(id, "_"))
    else if LastAt(id).Some? then
      var at := LastAt(id).value;
      FromDomain(id[at + 1..], if at == 0 then "_" else id[..at])
    else if DotBit(id) then FromDotBit(id, "_")
    else None
  }

  lemma LastAtIs(local: string, domain: string)
    requires '@' !in domain
    ensures LastAt(local + "@" + domain) == Some(|local|)
  {
    var id := local + "@" + domain;
    assert id[|local|] == '@' && id[|local| + 1..] == domain;
    assert LastAt(id).value >= |local|;
  }

  /** Whatever parses has a local part and a namespaced name short enough to look up: `nameShow` never
      refuses its length. */
  lemma ParsedCanBeLookedUp(id: string)
    requires ParseIdentifier(id).Some?
    ensures var n := ParseIdentifier(id).value;
            && n.local != "" && InBounds(n.namecoin)
            && '/' !in Stem(n.namecoin).value && '@' !in n.namecoin
            && 0 < Utf8Bytes(n.namecoin) <= Failover.NAMECOIN_NAME_MAX_BYTES
  {
  }

  /** Behind its last `@`, an identifier is judged by its domain alone. */
  lemma SplitAt(local: string, domain: string)
    requires '@' !in domain
    ensures ParseIdentifier(local + "@" + domain) == FromDomain(domain, if local == "" then "_" else local)
  {
    var id := local + "@" + domain;
    LastAtIs(local, domain);
    assert id[|local|] == '@' && id[..|local|] == local && id[|local| + 1..] == domain;
  }

  predicate Plain(stem: string) {
    stem != "" && forall c | c in stem :: c != '/' && c != '.' && c != '@' && !Space(c)
  }

  lemma DotBitSpelling(stem: string, local: string)
    requires Plain(stem)
    ensures var domain := stem + ".bit";
            && DotBit(domain) && FromDotBit(domain, local) == Finalize(Name("d/" + stem, local))
            && '@' !in domain && !Namespaced(domain)
  {
    var domain := stem + ".bit";
    assert domain[|domain| - 4..] == ".bit" && domain[..|domain| - 4] == stem;
    NamespaceHasSlash(domain);
  }

  lemma NamespaceHasSlash(s: string)
    ensures Stem(s).Some? ==> '/' in s
  {
    if "d/" <= s {
      assert s[1] == '/';
    } else if "id/" <= s {
      assert s[2] == '/';
    }
  }

  lemma DirectSpelling(stem: string)
    requires Plain(stem)
    ensures var name := "d/" + stem;
            Namespaced(name) && '@' !in name && !DotBit(name)
  {
    var name := "d/" + stem;
    assert name[2..] == stem;
    if DotBit(name) { DotBitHasDot(name); }
  }

  lemma DotBitHasDot(domain: string)
    requires DotBit(domain)
    ensures '.' in domain
  {
    assert domain[|domain| - 4..][0] == domain[|domain| - 4];
  }

  /** A plain stem is one name in all its spellings: `x.bit`, `@x.bit`, `_@x.bit`, `d/x` and `_@d/x`
      parse alike, whether accepted or too long. */
  lemma SpellingsAgree(stem: string)
    requires Plain(stem)
    ensures var n := Finalize(Name("d/" + stem, "_"));
            && ParseIdentifier(stem + ".bit") == n && ParseIdentifier("" + "@" + (stem + ".bit")) == n
            && ParseIdentifier("_" + "@" + (stem + ".bit")) == n
            && ParseIdentifier("d/" + stem) == n && ParseIdentifier("_" + "@" + ("d/" + stem)) == n
  {
    DotBitSpelling(stem, "_");
    DirectSpelling(stem);
    SplitAt("", stem + ".bit");
    SplitAt("_", stem + ".bit");
    SplitAt("_", "d/" + stem);
  }

  lemma DotBitChangesName(domain: string, local: string)
    requires DotBit(domain)
    ensures FromDotBit(domain, local) != Some(Name(domain, local))
  {
  }

  predicate SevenBit(s: string) {
    forall i | 0 <= i < |s| :: s[i] as int < 0x80
  }

  lemma {:induction false} AsciiLengths(s: string)
    requires SevenBit(s)
    ensures Units(s) == |s| && Utf8Bytes(s) == |s|
  {
    if s != "" { AsciiLengths(s[1..]); }
  }

  /** For a 7-bit name the stem's bound is the only one: 64 characters, in either namespace. */
  lemma AsciiBound(namespace: string, stem: string)
    requires (namespace == "d/" || namespace == "id/") && SevenBit(stem)
    ensures InBounds(namespace + stem) <==> 0 < |stem| <= MAX_STEM_LEN
  {
    var name := namespace + stem;
    assert name[|namespace|..] == stem && name[0] == namespace[0];
    assert SevenBit(name);
    AsciiLengths(stem);
    AsciiLengths(name);
  }

  /** A plain 7-bit stem of at most 64 characters is accepted on its own and behind any local part. */
  lemma PlainParses(stem: string, local: string)
    requires Plain(stem) && SevenBit(stem) && |stem| <= MAX_STEM_LEN && local != ""
    ensures ParseIdentifier("d/" + stem) == Some(Name("d/" + stem, "_"))
    ensures ParseIdentifier(local + "@" + ("d/" + stem)) == Some(Name("d/" + stem, local))
  {
    AsciiBound("d/", stem);
    DirectSpelling(stem);
    SplitAt(local, "d/" + stem);
  }

  /** A name rendered as `local@name` parses back to itself exactly when it is a namespaced name within
      bounds without `@` and does not end in `.bit`. (A name such as `d/x.bit` can be asked for only on
      its own.) */
  lemma RenderRoundTripIff(n: Name)
    requires n.local != ""
    ensures ParseIdentifier(n.local + "@" + n.namecoin) == Some(n)
       <==> Namespaced(n.namecoin) && InBounds(n.namecoin) && '@' !in n.namecoin && !DotBit(n.namecoin)
  {
    if '@' !in n.namecoin {
      SplitAt(n.local, n.namecoin);
      if DotBit(n.namecoin) { DotBitChangesName(n.namecoin, n.local); }
    } else if ParseIdentifier(n.local + "@" + n.namecoin) == Some(n) {
      ParsedCanBeLookedUp(n.local + "@" + n.namecoin);
    }
  }

  lemma FromDotBitMeaning(stem: string, local: string)
    ensures DotBit(stem + ".bit")
    ensures FromDotBit(stem + ".bit", local) ==
      if '/' !in stem && '.' !in stem && 1 <= Units(stem) <= 64 && Utf8Bytes("d/" + stem) <= 67
      then Some(Name("d/" + stem, local))
      else None
  {
    var domain := stem + ".bit";
    assert domain[|domain| - 4..] == ".bit" && domain[..|domain| - 4] == stem && ("d/" + stem)[2..] == stem;
  }

  lemma StemOf(namespace: string, stem: string)
    requires namespace == "d/" || namespace == "id/"
    ensures Stem(namespace + stem) == Some(stem)
  {
    var name := namespace + stem;
    assert name[|namespace|..] == stem && name[0] == namespace[0];
  }

  lemma FromNamespaceMeaning(namespace: string, stem: string, local: string)
    requires (namespace == "d/" || namespace == "id/") && !DotBit(namespace + stem)
    ensures FromDomain(namespace + stem, local) ==
      if '/' !in stem && (forall c | c in stem :: !Space(c)) && 1 <= Units(stem) <= 64 && Utf8Bytes(namespace + stem) <= 67
      then Some(Name(namespace + stem, local))
      else None
  {
    StemOf(namespace, stem);
    var name := namespace + stem;
    assert Namespaced(name) <==> stem != "" && '/' !in stem && forall c | c in stem :: !Space(c);
    assert InBounds(name) <==> 1 <= Units(stem) <= 64 && Utf8Bytes(name) <= 67;
  }

  lemma NoAt(a: string, b: string)
    requires '@' !in a && '@' !in b
    ensures '@' !in a + b
  {
  }

  /** The name and the local part of `local@stem.bit`, exactly: accepted as `d/stem` with the local part as
      written - or `_` if there is none - when the stem is not empty, has no dot or slash, and is within 64
      units and, with its namespace, 67 bytes. */
  lemma BehindDotBit(local: string, stem: string)
    requires '@' !in stem
    ensures ParseIdentifier(local + "@" + (stem + ".bit")) ==
      if '/' !in stem && '.' !in stem && 1 <= Units(stem) <= 64 && Utf8Bytes("d/" + stem) <= 67
      then Some(Name("d/" + stem, if local == "" then "_" else local))
      else None
  {
    NoAt(stem, ".bit");
    FromDotBitMeaning(stem, if local == "" then "_" else local);
    SplitAt(local, stem + ".bit");
  }

  /** The same for a domain in the direct form, which may have dots but no white space. */
  lemma BehindNamespace(local: string, namespace: string, stem: string)
    requires namespace == "d/" || namespace == "id/"
    requires '@' !in stem && !DotBit(namespace + stem)
    ensures ParseIdentifier(local + "@" + (namespace + stem)) ==
      if '/' !in stem && (forall c | c in stem :: !Space(c)) && 1 <= Units(stem) <= 64 && Utf8Bytes(namespace + stem) <= 67
      then Some(Name(namespace + stem, if local == "" then "_" else local))
      else None
  {
    NoAt(namespace, stem);
    FromNamespaceMeaning(namespace, stem, if local == "" then "_" else local);
    SplitAt(local, namespace + stem);
  }

  // ---------- What can be asked ----------

  /** An identifier as trimming and lower-casing leave it, as far as ASCII goes. */
  predicate Clean(id: string) {
    (id == "" || (!Space(id[0]) && !Space(id[|id| - 1]))) && LowerCased(id)
  }

  predicate LowerCased(s: string) {
    forall i | 0 <= i < |s| :: !('A' <= s[i] <= 'Z')
  }

  /** The name of a `.bit` domain. */
  predicate DomainName(namecoin: string) {
    "d/" <= namecoin && namecoin[2..] != "" && '/' !in namecoin[2..] && '.' !in namecoin[2..]
  }

  /** The questions that some identifier asks. */
  predicate Askable(n: Name) {
    && n.local != "" && !Space(n.local[0]) && LowerCased(n.local) && LowerCased(n.namecoin)
    && InBounds(n.namecoin) && '@' !in n.namecoin
    && ((Namespaced(n.namecoin) && (DotBit(n.namecoin) ==> n.local == "_")) || DomainName(n.namecoin))
  }

  lemma DomainNameIs(stem: string)
    requires stem != "" && '/' !in stem && '.' !in stem
    ensures DomainName("d/" + stem)
  {
    assert ("d/" + stem)[2..] == stem;
  }

  lemma FromDotBitAskable(domain: string, local: string)
    requires DotBit(domain) && '@' !in domain && LowerCased(domain) && FromDotBit(domain, local).Some?
    requires local != "" && !Space(local[0]) && LowerCased(local)
    ensures Askable(FromDotBit(domain, local).value)
  {
    var stem := domain[..|domain| - 4];
    DomainNameIs(stem);
    assert forall c | c in stem :: c in domain;
  }

  lemma FromDomainAskable(domain: string, local: string)
    requires '@' !in domain && LowerCased(domain) && FromDomain(domain, local).Some?
    requires local != "" && !Space(local[0]) && LowerCased(local)
    ensures Askable(FromDomain(domain, local).value)
  {
    if DotBit(domain) { FromDotBitAskable(domain, local); }
  }

  lemma NamespacedAskable(id: string)
    requires Namespaced(id) && '@' !in id && LowerCased(id) && Finalize(Name(id, "_")).Some?
    ensures Askable(Name(id, "_"))
  {
  }

  /** Whatever parses is askable. */
  lemma ParsedIsAskable(id: string)
    requires Clean(id) && ParseIdentifier(id).Some?
    ensures Askable(ParseIdentifier(id).value)
  {
    var at := LastAt(id);
    if at.Some? {
      var local, domain := if at.value == 0 then "_" else id[..at.value], id[at.value + 1..];
      assert ParseIdentifier(id) == FromDomain(domain, local);
      assert LowerCased(local) && LowerCased(domain);
      FromDomainAskable(domain, local);
    } else if Namespaced(id) {
      NamespacedAskable(id);
    } else {
      FromDotBitAskable(id, "_");
    }
  }

  lemma StemEnds(name: string)
    requires Namespaced(name)
    ensures !Space(name[0]) && !Space(name[|name| - 1])
    ensures DotBit(name) ==> !DomainName(name)
  {
    var stem := Stem(name).value;
    assert name[|name| - 1] == stem[|stem| - 1];
    if DotBit(name) && "d/" <= name {
      assert name[|name| - 4] == '.' && name[1] == '/';
      assert name[|name| - 4] in name[2..];
    }
  }

  lemma CleanJoin(local: string, domain: string)
    requires local != "" && domain != "" && !Space(local[0]) && !Space(domain[|domain| - 1])
    requires LowerCased(local) && LowerCased(domain)
    ensures Clean(local + "@" + domain)
  {
  }

  /** Behind a local part, the name of a domain is asked for by its `.bit` spelling. */
  lemma AskedByDomain(n: Name) returns (id: string)
    requires Askable(n) && DomainName(n.namecoin)
    ensures Clean(id) && ParseIdentifier(id) == Some(n)
  {
    var stem := n.namecoin[2..];
    var domain := stem + ".bit";
    id := n.local + "@" + domain;
    assert domain[|domain| - 4..] == ".bit" && domain[..|domain| - 4] == stem && "d/" + stem == n.namecoin;
    assert forall i | 0 <= i < |stem| :: stem[i] == n.namecoin[i + 2];
    CleanJoin(n.local, domain);
    SplitAt(n.local, domain);
  }

  /** Whatever is askable is asked by an identifier. */
  lemma AskedBy(n: Name) returns (id: string)
    requires Askable(n)
    ensures Clean(id) && ParseIdentifier(id) == Some(n)
  {
    if !Namespaced(n.namecoin) {
      id := AskedByDomain(n);
      return;
    }
    StemEnds(n.namecoin);
    if DotBit(n.namecoin) {
      id := n.namecoin;
    } else {
      id := n.local + "@" + n.namecoin;
      CleanJoin(n.local, n.namecoin);
      SplitAt(n.local, n.namecoin);
    }
  }

  /** The image of the parser: a question is asked by some identifier exactly when it is askable. */
  lemma AskableIff(n: Name)
    ensures (exists id :: Clean(id) && ParseIdentifier(id) == Some(n)) <==> Askable(n)
  {
    if Askable(n) { var id := AskedBy(n); }
    if id :| Clean(id) && ParseIdentifier(id) == Some(n) { ParsedIsAskable(id); }
  }
}
