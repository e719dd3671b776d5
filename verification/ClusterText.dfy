/**
  Text handling of the cluster parser in src/main_config.rs: normalising a cluster string and
  cutting it into items.
 */
module ClusterText {

  /** Unicode white space. */
  predicate IsSpace(c: char) {
    var x := c as int;
    || 9 <= x <= 13 || x == 0x20 || x == 0x85 || x == 0xA0 || x == 0x1680 || 0x2000 <= x <= 0x200A
    || x == 0x2028 || x == 0x2029 || x == 0x202F || x == 0x205F || x == 0x3000
  }

  function TrimStart(s: string): (r: string)
    ensures |r| <= |s| && (r == "" || !IsSpace(r[0]))
    ensures forall c :: c in r ==> c in s
  {
    if s == "" || !IsSpace(s[0]) then s else TrimStart(s[1..])
  }

  function TrimEnd(s: string): (r: string)
    ensures r <= s && (r == "" || !IsSpace(r[|r| - 1]))
  {
    if s == "" || !IsSpace(s[|s| - 1]) then s else TrimEnd(s[..|s| - 1])
  }

  function Trim(s: string): (r: string)
    ensures |r| <= |s| && forall c :: c in r ==> c in s
  {
    TrimEnd(TrimStart(s))
  }

  /** ASCII lower case, with a hyphen for an underscore. */
  function Plain(c: char): char {
    if 'A' <= c <= 'Z' then c - 'A' + 'a' else if c == '_' then '-' else c
  }

  function PlainAll(s: string): (r: string)
    ensures |r| == |s| && forall i :: 0 <= i < |s| ==> r[i] == Plain(s[i])
  {
    seq(|s|, i requires 0 <= i < |s| => Plain(s[i]))
  }

  function Normalise(s: string): (r: string)
    ensures |r| <= |s|
  {
    PlainAll(Trim(s))
  }

  /** Neither end is white space. */
  predicate Trimmed(s: string) {
    s == "" || (!IsSpace(s[0]) && !IsSpace(s[|s| - 1]))
  }

  predicate Normal(s: string) {
    Trimmed(s) && forall c :: c in s ==> Plain(c) == c
  }

  lemma {:induction false} TrimmedStays(s: string)
    requires Trimmed(s)
    ensures Trim(s) == s
  {
  }

  lemma {:induction false} TrimTrims(s: string)
    ensures Trimmed(Trim(s))
  {
    var t := TrimStart(s);
    var r := TrimEnd(t);
    if r != "" {
      assert r[0] == t[0];
    }
  }

  lemma {:induction false} NormalStays(s: string)
    requires Normal(s)
    ensures Normalise(s) == s
  {
    TrimmedStays(s);
  }

  lemma {:induction false} NormaliseNormal(s: string)
    ensures Normal(Normalise(s))
  {
    TrimTrims(s);
  }

  /** Rust's `split(sep)`. */
  function Split(s: string, sep: char): (r: seq<string>)
    ensures r != []
    ensures forall p :: p in r ==> |p| <= |s| && (sep in s ==> |p| < |s|)
    ensures forall p :: p in r ==> sep !in p && forall c :: c in p ==> c in s
  {
    if s == "" then [""]
    else
      var rest := Split(s[1..], sep);
      assert s == [s[0]] + s[1..];
      if s[0] == sep then [""] + rest
      else
        assert rest[0] in rest;
        [[s[0]] + rest[0]] + rest[1..]
  }

  function Kept(parts: seq<string>): (r: seq<string>)
    ensures forall x :: x in r <==> x != "" && exists p :: p in parts && x == Trim(p)
  {
    if parts == [] then []
    else
      var rest := Kept(parts[1..]);
      assert parts == [parts[0]] + parts[1..];
      if Trim(parts[0]) == "" then rest else [Trim(parts[0])] + rest
  }

  /** The trimmed parts that are not empty. */
  function Items(s: string, sep: char): (r: seq<string>)
    ensures forall x :: x in r ==> |x| <= |s| && (sep in s ==> |x| < |s|)
  {
    Kept(Split(s, sep))
  }

  /** Without a separator the string is its own only item. */
  lemma {:induction false} NoSeparator(n: string, sep: char)
    requires sep !in n && Normal(n)
    ensures Items(n, sep) == if n == "" then [] else [n]
  {
    SplitWhole(n, sep);
    TrimmedStays(n);
    var rest := [n][1..];
    assert rest == [] && Kept(rest) == [];
    assert Kept([n]) == if n == "" then [] else [n] + Kept(rest);
  }

  lemma {:induction false} SplitWhole(n: string, sep: char)
    requires sep !in n
    ensures Split(n, sep) == [n]
  {
    if n != "" {
      assert n == [n[0]] + n[1..];
      SplitWhole(n[1..], sep);
    }
  }
}
