/**
 * The session cookie bag of S9sRpcClientPrivate: harvesting
 * "Set-Cookie: name=value" from a reply's headers and rendering the bag as
 * one "Cookie:" request header (a small subset of sections 4.1 and 4.2 of
 * RFC 6265).
 *
 * The regular expressions of parseHeaders are stated directly: a match of
 * "Set-Cookie: ([^=]*)=([^,;\r\n]*)", with case ignored, starts where the
 * twelve bytes "set-cookie: " begin (in any case); the name runs to the
 * next '=', and the value is the longest run after it holding none of
 * ',', ';', '\r' and '\n'. "Server: ([^\r\n]*)" is matched with case kept.
 */
module Cookies {
  import opened Text
  import opened Variants

  datatype CookieMatch = CookieMatch(start: nat, name: string, value: string)

  const SetCookiePrefix: string := "set-cookie: "
  const ServerPrefix: string := "Server: "
  const ValueStops: set<char> := {',', ';', '\r', '\n'}
  const LineEnds: set<char> := {'\r', '\n'}

  /** The end of the longest run from `from` holding no byte of `stops`. */
  function SpanEnd(s: string, from: nat, stops: set<char>): (e: nat)
    requires from <= |s|
    ensures from <= e <= |s|
    ensures forall j :: from <= j < e ==> s[j] !in stops
    ensures e < |s| ==> s[e] in stops
    decreases |s| - from
  {
    if from == |s| || s[from] in stops then from else SpanEnd(s, from + 1, stops)
  }

  /** The first stop at or after `from` is the one at e. */
  lemma SpanEndAt(s: string, from: nat, e: nat, stops: set<char>)
    requires from <= e <= |s|
    requires forall c :: c in s[from..e] ==> c !in stops
    requires e == |s| || s[e] in stops
    ensures SpanEnd(s, from, stops) == e
  {
    forall j | from <= j < e
      ensures s[j] !in stops
    {
      assert s[j] == s[from..e][j - from];
    }
  }

  /** From its k-th byte on, "set-cookie: " occurs at index p of s with case ignored. */
  predicate SetCookieFrom(s: string, p: nat, k: nat)
    decreases |SetCookiePrefix| - k
  {
    k >= |SetCookiePrefix| ||
    (p + k < |s| && ToLower(s[p + k]) == SetCookiePrefix[k] && SetCookieFrom(s, p, k + 1))
  }

  lemma {:induction false} SetCookieFromBytes(s: string, p: nat, k: nat)
    requires k <= |SetCookiePrefix| && p + |SetCookiePrefix| <= |s|
    requires forall i :: p + k <= i < p + |SetCookiePrefix| ==> ToLower(s[i]) == SetCookiePrefix[i - p]
    ensures SetCookieFrom(s, p, k)
    decreases |SetCookiePrefix| - k
  {
    if k < |SetCookiePrefix| {
      SetCookieFromBytes(s, p, k + 1);
    }
  }

  /** The name and value of a match whose "set-cookie: " ends at index q: the name runs to the next '='. */
  function CookieAfter(s: string, q: nat): Option<(string, string)>
    requires q <= |s|
  {
    var e := SpanEnd(s, q, {'='});
    if e < |s| then Some((s[q..e], s[e + 1..SpanEnd(s, e + 1, ValueStops)])) else None
  }

  /** The cookie match starting at index p, if any. */
  function CookieAt(s: string, p: nat): (r: Option<CookieMatch>)
    ensures r.Some? ==> r.value.start == p && p + |SetCookiePrefix| < |s|
  {
    var q := p + |SetCookiePrefix|;
    if q <= |s| && SetCookieFrom(s, p, 0) then
      match CookieAfter(s, q)
      case Some((name, value)) => Some(CookieMatch(p, name, value))
      case None => None
    else None
  }

  /** A match's name holds no '=' and its value none of ',', ';', CR and LF. */
  lemma CookieAtShape(s: string, p: nat)
    ensures CookieAt(s, p).Some? ==> '=' !in CookieAt(s, p).value.name
    ensures CookieAt(s, p).Some? ==> forall c :: c in CookieAt(s, p).value.value ==> c !in ValueStops
  {
    var q := p + |SetCookiePrefix|;
    if CookieAt(s, p).Some? {
      assert CookieAfter(s, q).Some?;
      var e := SpanEnd(s, q, {'='});
      var v := SpanEnd(s, e + 1, ValueStops);
      assert forall c :: c in s[q..e] ==> c != '=';
      assert forall c :: c in s[e + 1..v] ==> c !in ValueStops;
    }
  }

  /** The leftmost cookie match at or after `from`. */
  function FindCookie(s: string, from: nat): (r: Option<CookieMatch>)
    ensures r.Some? ==> from <= r.value.start < |s|
    decreases |s| - from
  {
    if from >= |s| then None
    else if CookieAt(s, from).Some? then CookieAt(s, from)
    else FindCookie(s, from + 1)
  }

  /** What FindCookie returns is the match at its start. */
  lemma {:induction false} FindCookieSound(s: string, from: nat)
    ensures FindCookie(s, from).Some? ==> CookieAt(s, FindCookie(s, from).value.start) == FindCookie(s, from)
    decreases |s| - from
  {
    if from < |s| && CookieAt(s, from).None? {
      FindCookieSound(s, from + 1);
    }
  }

  /** FindCookie passes over no match: any match at or after `from` is at or after the one found. */
  lemma {:induction false} FindCookieLeftmost(s: string, from: nat, p: nat)
    requires from <= p && CookieAt(s, p).Some?
    ensures FindCookie(s, from).Some? && FindCookie(s, from).value.start <= p
    decreases |s| - from
  {
    assert p < |s|;
    if CookieAt(s, from).None? {
      FindCookieLeftmost(s, from + 1, p);
    }
  }

  /**
   * The matches parseHeaders visits from `from` on: it resumes one byte
   * after the start of each match, so every match start is visited once, in
   * order.
   */
  function CookieMatches(s: string, from: nat): (ms: seq<CookieMatch>)
    decreases |s| - from
  {
    if from >= |s| then []
    else match FindCookie(s, from)
      case None => []
      case Some(m) => [m] + CookieMatches(s, m.start + 1)
  }

  /** The visited matches lie at or after `from`, in increasing order of start. */
  lemma {:induction false} CookieMatchesOrdered(s: string, from: nat)
    ensures forall i :: 0 <= i < |CookieMatches(s, from)| ==> from <= CookieMatches(s, from)[i].start < |s|
    ensures forall i, j :: 0 <= i < j < |CookieMatches(s, from)| ==>
      CookieMatches(s, from)[i].start < CookieMatches(s, from)[j].start
    decreases |s| - from
  {
    var ms := CookieMatches(s, from);
    if from < |s| && FindCookie(s, from).Some? {
      var m := FindCookie(s, from).value;
      CookieMatchesOrdered(s, m.start + 1);
      var rest := CookieMatches(s, m.start + 1);
      assert ms == [m] + rest;
      forall i | 0 <= i < |ms|
        ensures from <= ms[i].start < |s|
      {
        if i > 0 {
          assert ms[i] == rest[i - 1];
        }
      }
      forall i, j | 0 <= i < j < |ms|
        ensures ms[i].start < ms[j].start
      {
        assert ms[j] == rest[j - 1];
        if i > 0 {
          assert ms[i] == rest[i - 1];
        }
      }
    }
  }

  /** The i-th visited match is the match at its own start. */
  lemma {:induction false} CookieMatchIsMatch(s: string, from: nat, i: nat)
    requires i < |CookieMatches(s, from)|
    ensures CookieAt(s, CookieMatches(s, from)[i].start) == Some(CookieMatches(s, from)[i])
    decreases i
  {
    var m := FindCookie(s, from).value;
    CookieMatchesStep(s, from);
    if i == 0 {
      FindCookieSound(s, from);
    } else {
      CookieMatchIsMatch(s, m.start + 1, i - 1);
    }
  }

  /** Each visited match is the match at its own start. */
  lemma CookieMatchesAreMatches(s: string, from: nat)
    ensures forall i :: 0 <= i < |CookieMatches(s, from)| ==>
      CookieAt(s, CookieMatches(s, from)[i].start) == Some(CookieMatches(s, from)[i])
  {
    forall i | 0 <= i < |CookieMatches(s, from)| {
      CookieMatchIsMatch(s, from, i);
    }
  }

  /** No match is passed over: every match start at or after `from` is visited, at index i. */
  lemma {:induction false} CookieMatchesComplete(s: string, from: nat, p: nat) returns (i: nat)
    requires from <= p && CookieAt(s, p).Some?
    ensures i < |CookieMatches(s, from)| && CookieMatches(s, from)[i].start == p
    decreases |s| - from
  {
    FindCookieLeftmost(s, from, p);
    var m := FindCookie(s, from).value;
    CookieMatchesStep(s, from);
    if p == m.start {
      i := 0;
    } else {
      var j := CookieMatchesComplete(s, m.start + 1, p);
      i := j + 1;
    }
  }

  /** Some match in ms starts at p. */
  predicate Visits(ms: seq<CookieMatch>, p: nat) {
    exists i :: 0 <= i < |ms| && ms[i].start == p
  }

  /** parseHeaders sees every cookie match in the buffer. */
  lemma CookieMatchesVisitEvery(s: string)
    ensures forall p: nat :: CookieAt(s, p).Some? ==> Visits(CookieMatches(s, 0), p)
  {
    forall p: nat | CookieAt(s, p).Some?
      ensures Visits(CookieMatches(s, 0), p)
    {
      var i := CookieMatchesComplete(s, 0, p);
      assert CookieMatches(s, 0)[i].start == p;
    }
  }

  /** One step of the parseHeaders loop: the leftmost match, then the matches after its start. */
  lemma CookieMatchesStep(s: string, from: nat)
    requires from < |s| && FindCookie(s, from).Some?
    ensures CookieMatches(s, from) == [FindCookie(s, from).value] + CookieMatches(s, FindCookie(s, from).value.start + 1)
  {
  }

  /** One step of the parseHeaders loop, on the cookie bag. */
  lemma HarvestStep(s: string, from: nat, bag: map<string, Variant>)
    requires from < |s| && FindCookie(s, from).Some?
    ensures var m := FindCookie(s, from).value;
      Upsert(bag, CookieMatches(s, from)) == Upsert(bag[m.name := String(m.value)], CookieMatches(s, m.start + 1))
  {
    var m := FindCookie(s, from).value;
    CookieMatchesStep(s, from);
    UpsertStep(bag, m, CookieMatches(s, m.start + 1));
  }

  /** The cookie bag after upserting every match in order. */
  function Upsert(bag: map<string, Variant>, ms: seq<CookieMatch>): map<string, Variant>
    decreases |ms|
  {
    if |ms| == 0 then bag else Upsert(bag[ms[0].name := String(ms[0].value)], ms[1..])
  }

  /** Upserting adds exactly the matched names to the bag's keys. */
  lemma {:induction false} UpsertKeys(bag: map<string, Variant>, ms: seq<CookieMatch>)
    ensures Upsert(bag, ms).Keys == bag.Keys + set i | 0 <= i < |ms| :: ms[i].name
    decreases |ms|
  {
    if |ms| > 0 {
      UpsertKeys(bag[ms[0].name := String(ms[0].value)], ms[1..]);
      assert (set i | 0 <= i < |ms| :: ms[i].name) == {ms[0].name} + set i | 0 <= i < |ms[1..]| :: ms[1..][i].name;
    }
  }

  lemma UpsertStep(bag: map<string, Variant>, m: CookieMatch, rest: seq<CookieMatch>)
    ensures Upsert(bag, [m] + rest) == Upsert(bag[m.name := String(m.value)], rest)
  {
    assert ([m] + rest)[1..] == rest;
  }

  /** A cookie no match names keeps its value. */
  lemma {:induction false} UpsertKeepsUnnamed(bag: map<string, Variant>, ms: seq<CookieMatch>, k: string)
    requires forall i :: 0 <= i < |ms| ==> ms[i].name != k
    requires k in bag
    ensures k in Upsert(bag, ms) && Upsert(bag, ms)[k] == bag[k]
    decreases |ms|
  {
    if |ms| > 0 {
      UpsertKeepsUnnamed(bag[ms[0].name := String(ms[0].value)], ms[1..], k);
    }
  }

  /** A cookie named by several matches takes the value of the last one. */
  lemma {:induction false} UpsertLastWins(bag: map<string, Variant>, ms: seq<CookieMatch>, i: nat)
    requires i < |ms|
    requires forall j :: i < j < |ms| ==> ms[j].name != ms[i].name
    ensures ms[i].name in Upsert(bag, ms) && Upsert(bag, ms)[ms[i].name] == String(ms[i].value)
    decreases |ms|
  {
    var next := bag[ms[0].name := String(ms[0].value)];
    if i == 0 {
      UpsertKeepsUnnamed(next, ms[1..], ms[0].name);
    } else {
      UpsertLastWins(next, ms[1..], i - 1);
    }
  }

  /** parseHeaders keeps every cookie that no match in the buffer names. */
  lemma HarvestKeepsUnmentioned(s: string, bag: map<string, Variant>, k: string)
    requires k in bag
    requires forall p: nat :: CookieAt(s, p).Some? ==> CookieAt(s, p).value.name != k
    ensures k in Upsert(bag, CookieMatches(s, 0)) && Upsert(bag, CookieMatches(s, 0))[k] == bag[k]
  {
    var ms := CookieMatches(s, 0);
    CookieMatchesOrdered(s, 0);
    CookieMatchesAreMatches(s, 0);
    UpsertKeepsUnnamed(bag, ms, k);
  }

  /** The last Set-Cookie for a name in the buffer decides that cookie's value. */
  lemma HarvestLastWins(s: string, bag: map<string, Variant>, p: nat)
    requires CookieAt(s, p).Some?
    requires forall q: nat :: q > p && CookieAt(s, q).Some? ==>
      CookieAt(s, q).value.name != CookieAt(s, p).value.name
    ensures var m := CookieAt(s, p).value; var r := Upsert(bag, CookieMatches(s, 0));
      m.name in r && r[m.name] == String(m.value)
  {
    var ms := CookieMatches(s, 0);
    CookieMatchesOrdered(s, 0);
    CookieMatchesAreMatches(s, 0);
    var i := CookieMatchesComplete(s, 0, p);
    assert ms[i] == CookieAt(s, p).value;
    forall j | i < j < |ms|
      ensures ms[j].name != ms[i].name
    {
      assert ms[j].start > p;
      assert ms[j] == CookieAt(s, ms[j].start).value;
    }
    UpsertLastWins(bag, ms, i);
  }

  /** The Server header's value at index p, if "Server: " starts there. */
  function ServerAt(s: string, p: nat): (r: Option<string>)
    ensures r.Some? <==> p + |ServerPrefix| <= |s| && s[p..p + |ServerPrefix|] == ServerPrefix
    ensures r.Some? ==> forall c :: c in r.value ==> c !in LineEnds
    ensures r.Some? ==>
      p + |ServerPrefix| + |r.value| <= |s| && r.value == s[p + |ServerPrefix|..p + |ServerPrefix| + |r.value|]
    ensures r.Some? ==> p + |ServerPrefix| + |r.value| == |s| || s[p + |ServerPrefix| + |r.value|] in LineEnds
  {
    var q := p + |ServerPrefix|;
    if q <= |s| && s[p..q] == ServerPrefix then Some(s[q..SpanEnd(s, q, LineEnds)]) else None
  }

  /** The value of the leftmost "Server: " header at or after `from`. */
  function FindServer(s: string, from: nat): (r: Option<string>)
    ensures r.Some? ==> forall c :: c in r.value ==> c !in LineEnds
    decreases |s| - from
  {
    if from >= |s| then None
    else if ServerAt(s, from).Some? then ServerAt(s, from)
    else FindServer(s, from + 1)
  }

  /** FindServer finds a Server header whenever one starts at or after `from`. */
  lemma {:induction false} FindServerFinds(s: string, from: nat, p: nat)
    requires from <= p && ServerAt(s, p).Some?
    ensures FindServer(s, from).Some?
    decreases |s| - from
  {
    if ServerAt(s, from).None? {
      FindServerFinds(s, from + 1, p);
    }
  }

  /** A Server value that FindServer reports is the value of a "Server: " at or after `from`. */
  lemma {:induction false} FindServerSound(s: string, from: nat)
    ensures FindServer(s, from).Some? ==>
      exists p :: from <= p < |s| && ServerAt(s, p) == FindServer(s, from)
    decreases |s| - from
  {
    if from < |s| && ServerAt(s, from).None? {
      FindServerSound(s, from + 1);
    }
  }

  /** With no "Server: " between `from` and p, FindServer reports the one at p. */
  lemma {:induction false} FindServerLeftmost(s: string, from: nat, p: nat)
    requires from <= p && ServerAt(s, p).Some?
    requires forall q :: from <= q < p ==> ServerAt(s, q).None?
    ensures FindServer(s, from) == ServerAt(s, p)
    decreases p - from
  {
    if from < p {
      FindServerLeftmost(s, from + 1, p);
    }
  }

  /**
   * After a "set-cookie: " at p, a name without '=' up to index e, the '='
   * at e and a value without stop bytes up to index v, followed by a stop
   * byte or the end, make that match.
   */
  lemma CookieAfterParts(s: string, q: nat, e: nat, v: nat)
    requires q <= e < v <= |s|
    requires '=' !in s[q..e] && s[e] == '='
    requires forall c :: c in s[e + 1..v] ==> c !in ValueStops
    requires v == |s| || s[v] in ValueStops
    ensures CookieAfter(s, q) == Some((s[q..e], s[e + 1..v]))
  {
    SpanEndAt(s, q, e, {'='});
    SpanEndAt(s, e + 1, v, ValueStops);
  }

  lemma CookieAtParts(s: string, p: nat, e: nat, v: nat)
    requires p + |SetCookiePrefix| <= e < v <= |s| && SetCookieFrom(s, p, 0)
    requires '=' !in s[p + |SetCookiePrefix|..e] && s[e] == '='
    requires forall c :: c in s[e + 1..v] ==> c !in ValueStops
    requires v == |s| || s[v] in ValueStops
    ensures CookieAt(s, p) == Some(CookieMatch(p, s[p + |SetCookiePrefix|..e], s[e + 1..v]))
  {
    CookieAfterParts(s, p + |SetCookiePrefix|, e, v);
  }

  /** Where the parts of head + name + "=" + value + rest lie. */
  lemma PairLayout(head: string, name: string, value: string, rest: string, s: string)
    requires s == head + name + "=" + value + rest
    ensures s[..|head|] == head
    ensures s[|head|..|head| + |name|] == name && s[|head| + |name|] == '='
    ensures s[|head| + |name| + 1..|head| + |name| + 1 + |value|] == value
    ensures s[|head| + |name| + 1 + |value|..] == rest
  {
    var a := head + name;
    var b := a + "=";
    var c := b + value;
    assert s[..|c|] == c && c[..|b|] == b && b[..|a|] == a;
    assert a[..|head|] == head && a[|head|..] == name;
    assert c[|b|..] == value;
  }

  /** A header line written as "Set-Cookie: name=value" is read back as that cookie. */
  lemma SetCookieLineParses(name: string, value: string, rest: string)
    requires '=' !in name
    requires forall c :: c in value ==> c !in ValueStops
    requires rest == [] || rest[0] in ValueStops
    ensures CookieAt("Set-Cookie: " + name + "=" + value + rest, 0) == Some(CookieMatch(0, name, value))
  {
    var h := "Set-Cookie: ";
    var s := h + name + "=" + value + rest;
    PairLayout(h, name, value, rest, s);
    assert ToLowerString(h) == SetCookiePrefix;
    assert forall i :: 0 <= i < |h| ==> ToLower(s[i]) == ToLowerString(s[..|h|])[i];
    SetCookieFromBytes(s, 0, 0);
    var v := |h| + |name| + 1 + |value|;
    assert v < |s| ==> s[v] == s[v..][0] == rest[0];
    CookieAtParts(s, 0, |h| + |name|, v);
  }

  /** A reply whose headers start with "Server: value" reports that value. */
  lemma ServerLineParses(value: string, rest: string)
    requires forall c :: c in value ==> c !in LineEnds
    requires rest == [] || rest[0] in LineEnds
    ensures FindServer("Server: " + value + rest, 0) == Some(value)
  {
    var s := "Server: " + value + rest;
    var q := |ServerPrefix|;
    assert s[0..q] == ServerPrefix;
    var v := q + |value|;
    assert s[q..v] == value;
    assert v < |s| ==> s[v] == rest[0];
    assert SpanEnd(s, q, LineEnds) == v;
  }

  // ---------------------------------------------------------------------
  // Rendering the bag: S9sVariantMap iterates in ascending key order.
  // ---------------------------------------------------------------------

  predicate IsLeast(k: string, keys: set<string>) {
    k in keys && forall x :: x in keys ==> x == k || StrLess(k, x)
  }

  lemma {:induction false} LeastExists(keys: set<string>)
    requires keys != {}
    ensures exists k :: IsLeast(k, keys)
    decreases |keys|
  {
    var x :| x in keys;
    if keys != {x} {
      var others := keys - {x};
      LeastExists(others);
      var y :| IsLeast(y, others);
      StrLessTotal(x, y);
      if StrLess(x, y) {
        forall z | z in keys && z != x
          ensures StrLess(x, z)
        {
          if z != y {
            StrLessTransitive(x, y, z);
          }
        }
        assert IsLeast(x, keys);
      } else {
        assert IsLeast(y, keys);
      }
    }
  }

  lemma LeastUnique(a: string, b: string, keys: set<string>)
    requires IsLeast(a, keys) && IsLeast(b, keys)
    ensures a == b
  {
    if a != b {
      StrLessAsymmetric(a, b);
    }
  }

  /** The keys in ascending std::string order: the least key, then the rest in order. */
  ghost function SortedKeys(keys: set<string>): (r: seq<string>)
    ensures |r| == |keys|
    ensures forall i :: 0 <= i < |r| ==> r[i] in keys
    ensures keys != {} ==> IsLeast(r[0], keys)
    decreases |keys|
  {
    if keys == {} then []
    else
      LeastExists(keys);
      var k :| IsLeast(k, keys);
      var rest := SortedKeys(keys - {k});
      var r := [k] + rest;
      assert r[1..] == rest;
      r
  }

  /** SortedKeys lists every key once, strictly ascending. */
  lemma {:induction false} SortedKeysAscending(keys: set<string>)
    ensures forall k :: k in keys ==> k in SortedKeys(keys)
    ensures forall i, j :: 0 <= i < j < |SortedKeys(keys)| ==> StrLess(SortedKeys(keys)[i], SortedKeys(keys)[j])
    decreases |keys|
  {
    if keys != {} {
      var r := SortedKeys(keys);
      var k := r[0];
      var rest := keys - {k};
      SortedKeysAscending(rest);
      assert r == [k] + SortedKeys(rest);
      forall x | x in keys
        ensures x in r
      {
        if x != k {
          assert x in SortedKeys(rest);
        }
      }
      forall i, j | 0 <= i < j < |r|
        ensures StrLess(r[i], r[j])
      {
        assert r[j] == SortedKeys(rest)[j - 1];
        if i > 0 {
          assert r[i] == SortedKeys(rest)[i - 1];
        } else {
          assert r[j] in rest;
        }
      }
    }
  }

  lemma SortedKeysUnfold(keys: set<string>, k: string)
    requires IsLeast(k, keys)
    ensures SortedKeys(keys) == [k] + SortedKeys(keys - {k})
  {
    var r := SortedKeys(keys);
    LeastUnique(r[0], k, keys);
  }

  /** One "name=value" pair as sprintf("%s=%s") writes it: each part ends at its first NUL. */
  function CookiePair(name: string, value: Variant): (r: string)
    ensures '=' in r
    ensures '\0' !in name && '\0' !in ToString(value) ==> r == name + "=" + ToString(value)
  {
    CStr(name) + "=" + CStr(ToString(value))
  }

  /** The pairs for `keys`, in that order, joined by "; ". */
  function JoinPairs(cookies: map<string, Variant>, keys: seq<string>): (r: string)
    requires forall i :: 0 <= i < |keys| ==> keys[i] in cookies
    ensures r == [] <==> keys == []
  {
    if |keys| == 0 then ""
    else if |keys| == 1 then CookiePair(keys[0], cookies[keys[0]])
    else
      var last := keys[|keys| - 1];
      JoinPairs(cookies, keys[..|keys| - 1]) + "; " + CookiePair(last, cookies[last])
  }

  /** Appending a key to the joined pairs: its pair, after "; " unless it is the first. */
  lemma JoinPairsSnoc(cookies: map<string, Variant>, keys: seq<string>, k: string)
    requires forall i :: 0 <= i < |keys| ==> keys[i] in cookies
    requires k in cookies
    ensures JoinPairs(cookies, keys + [k]) ==
      if keys == [] then CookiePair(k, cookies[k]) else JoinPairs(cookies, keys) + "; " + CookiePair(k, cookies[k])
  {
    assert (keys + [k])[..|keys|] == keys;
  }

  /** One turn of the cookieHeaders loop: "; " unless only "Cookie: " is there yet, then the next pair. */
  lemma CookieHeaderStep(cookies: map<string, Variant>, done: seq<string>, k: string, header: string)
    requires forall i :: 0 <= i < |done| ==> done[i] in cookies
    requires k in cookies
    requires header == "Cookie: " + JoinPairs(cookies, done)
    ensures header != "Cookie: " <==> done != []
    ensures (if header != "Cookie: " then header + "; " else header) + CookiePair(k, cookies[k]) ==
      "Cookie: " + JoinPairs(cookies, done + [k])
  {
    JoinPairsSnoc(cookies, done, k);
    HeaderAppend(JoinPairs(cookies, done), CookiePair(k, cookies[k]), header);
  }

  /** Appending to "Cookie: " + joined, with "; " first unless joined is empty. */
  lemma HeaderAppend(joined: string, pair: string, header: string)
    requires header == "Cookie: " + joined
    ensures header != "Cookie: " <==> joined != []
    ensures joined == [] ==> header + pair == "Cookie: " + pair
    ensures header + "; " + pair == "Cookie: " + (joined + "; " + pair)
  {
    assert |header| == 8 + |joined|;
  }

  /** Taking the least remaining key moves it from the sorted rest to the keys already listed. */
  lemma SortedKeysTake(done: seq<string>, remaining: set<string>, k: string)
    requires IsLeast(k, remaining)
    ensures (done + [k]) + SortedKeys(remaining - {k}) == done + SortedKeys(remaining)
  {
    SortedKeysUnfold(remaining, k);
  }

  /** cookieHeaders(): empty without cookies, else one "Cookie:" line listing the pairs in key order. */
  ghost function CookieHeader(cookies: map<string, Variant>): (r: string)
    ensures r == [] <==> cookies == map[]
    ensures cookies != map[] ==> |r| > 10 && r[..8] == "Cookie: " && r[|r| - 2..] == "\r\n"
  {
    if |cookies| == 0 then ""
    else
      var pairs := JoinPairs(cookies, SortedKeys(cookies.Keys));
      var r := "Cookie: " + pairs + "\r\n";
      assert r[..8] == "Cookie: ";
      assert r[|r| - 2..] == "\r\n";
      r
  }

  /** With one cookie the header is exactly "Cookie: name=value\r\n". */
  lemma SingleCookieHeader(name: string, value: string)
    requires '\0' !in name && '\0' !in value
    ensures CookieHeader(map[name := String(value)]) == "Cookie: " + name + "=" + value + "\r\n"
  {
    var cookies := map[name := String(value)];
    var keys := SortedKeys(cookies.Keys);
    assert cookies.Keys == {name};
    assert |keys| == 1 && keys[0] == name;
  }

  /** Two keys are listed smaller first. */
  lemma SortedTwoKeys(a: string, b: string)
    requires StrLess(a, b)
    ensures SortedKeys({a, b}) == [a, b]
  {
    StrLessIrreflexive(a);
    StrLessAsymmetric(a, b);
    var keys := SortedKeys({a, b});
    assert keys[0] == a;
    assert {a, b} - {a} == {b};
    assert keys[1..] == SortedKeys({b});
  }

  /** Two keys join as two pairs around "; ". */
  lemma JoinTwoPairs(cookies: map<string, Variant>, a: string, b: string)
    requires a in cookies && b in cookies
    ensures JoinPairs(cookies, [a, b]) == CookiePair(a, cookies[a]) + "; " + CookiePair(b, cookies[b])
  {
    assert [a, b][..1] == [a];
  }

  /** With two cookies the smaller name comes first, separated by "; ". */
  lemma TwoCookieHeader(a: string, va: string, b: string, vb: string)
    requires StrLess(a, b)
    requires '\0' !in a && '\0' !in va && '\0' !in b && '\0' !in vb
    ensures CookieHeader(map[a := String(va), b := String(vb)]) ==
      "Cookie: " + (a + "=" + va) + "; " + (b + "=" + vb) + "\r\n"
  {
    var cookies := map[a := String(va), b := String(vb)];
    StrLessIrreflexive(a);
    assert cookies.Keys == {a, b};
    SortedTwoKeys(a, b);
    JoinTwoPairs(cookies, a, b);
    StringCookiePair(a, va);
    StringCookiePair(b, vb);
    assert CookieHeader(cookies) == "Cookie: " + JoinPairs(cookies, [a, b]) + "\r\n";
    Regroup("Cookie: ", a + "=" + va, "; ", b + "=" + vb, "\r\n");
  }

  lemma Regroup(h: string, x: string, sep: string, y: string, t: string)
    ensures h + (x + sep + y) + t == h + x + sep + y + t
  {
  }

  /** A String cookie without NUL bytes is written as name=value. */
  lemma StringCookiePair(name: string, value: string)
    requires '\0' !in name && '\0' !in value
    ensures CookiePair(name, String(value)) == name + "=" + value
  {
    assert ToString(String(value)) == value;
  }
}
