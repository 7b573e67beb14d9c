/** `normalizeKeys` of src/hooks/useHealthData.ts: free-form answer keys are made canonical
    (NFD, combining marks U+0300..U+036F removed, lower case, whitespace runs to `_`) and
    collected into a dictionary in which a later entry overwrites an earlier one. */
module KeyNormalizer {
  import opened Json
  import Arrays

  /** The character class `[\u0300-\u036f]` (combining diacritical marks). */
  predicate IsMark(c: char) {
    '\U{0300}' <= c <= '\U{036F}'
  }

  /** The characters of the class `\s` of JavaScript regular expressions outside the block
      U+2000..U+200A. */
  const SpaceChars: set<char> := {
    '\t', '\n', '\U{000B}', '\U{000C}', '\r', ' ', '\U{00A0}', '\U{1680}',
    '\U{2028}', '\U{2029}', '\U{202F}', '\U{205F}', '\U{3000}', '\U{FEFF}'
  }

  /** The character class `\s` of JavaScript regular expressions. */
  predicate IsSpace(c: char) {
    c in SpaceChars || '\U{2000}' <= c <= '\U{200A}'
  }

  /** What the key pipeline needs of the host's case and decomposition tables, all true of
      Unicode's: NFD is idempotent, lower-casing is idempotent, lower-casing a decomposed
      character that is not a mark gives a decomposed character that is not a mark, and `_`
      is left alone by both. */
  ghost predicate ValidHost(h: Host) {
    && (forall c, i :: 0 <= i < |h.decompose(c)| ==>
          h.decompose(h.decompose(c)[i]) == [h.decompose(c)[i]])
    && (forall c {:trigger h.lower(h.lower(c))} :: h.lower(h.lower(c)) == h.lower(c))
    && (forall c :: h.decompose(c) == [c] && !IsMark(c) ==>
          h.decompose(h.lower(c)) == [h.lower(c)] && !IsMark(h.lower(c)))
    && h.decompose('_') == ['_']
    && h.lower('_') == '_'
  }

  /** `normalize("NFD")`. */
  function Decompose(h: Host, s: string): (r: string)
    ensures (forall i :: 0 <= i < |s| ==> h.decompose(s[i]) == [s[i]]) ==> r == s
  {
    if s == [] then [] else h.decompose(s[0]) + Decompose(h, s[1..])
  }

  /** `replace(/[\u0300-\u036f]/g, "")`. */
  function StripMarks(s: string): (r: string)
    ensures |r| <= |s|
    ensures forall i :: 0 <= i < |r| ==> r[i] in s && !IsMark(r[i])
    ensures forall i :: 0 <= i < |s| && !IsMark(s[i]) ==> s[i] in r
  {
    Arrays.Filter(c => !IsMark(c), s)
  }

  /** `toLowerCase()`. */
  function LowerCase(h: Host, s: string): (r: string)
    ensures |r| == |s|
    ensures (forall i :: 0 <= i < |s| ==> h.lower(s[i]) == s[i]) ==> r == s
  {
    seq(|s|, i requires 0 <= i < |s| => h.lower(s[i]))
  }

  /** The length of the whitespace run at the head of `s`. */
  function LeadingSpaces(s: string): (n: nat)
    ensures n <= |s|
    ensures forall i :: 0 <= i < n ==> IsSpace(s[i])
    ensures n < |s| ==> !IsSpace(s[n])
  {
    if s != [] && IsSpace(s[0]) then
      var n := LeadingSpaces(s[1..]);
      assert forall i :: 1 <= i < n + 1 ==> s[i] == s[1..][i - 1];
      n + 1
    else 0
  }

  /** `s` without its leading whitespace. */
  function TrimStart(s: string): (r: string)
    ensures |r| <= |s|
    ensures forall k :: 0 <= k < |r| ==> r[k] == s[|s| - |r| + k]
    ensures forall i :: 0 <= i < |s| - |r| ==> IsSpace(s[i])
    ensures r != [] ==> !IsSpace(r[0])
  {
    s[LeadingSpaces(s)..]
  }

  /** `replace(/\s+/g, "_")`: every maximal run of whitespace becomes one underscore. */
  function CollapseSpaces(s: string): (r: string)
    ensures |r| <= |s|
    ensures forall i :: 0 <= i < |r| ==> !IsSpace(r[i])
    decreases |s|
  {
    if s == [] then []
    else if IsSpace(s[0]) then "_" + CollapseSpaces(TrimStart(s[1..]))
    else [s[0]] + CollapseSpaces(s[1..])
  }

  /** The canonical form of one answer key. */
  function NormalizeKey(h: Host, key: string): (r: string)
    ensures forall i :: 0 <= i < |r| ==> !IsSpace(r[i])
  {
    CollapseSpaces(LowerCase(h, StripMarks(Decompose(h, key))))
  }

  /** A character normalisation leaves alone: already decomposed, not a combining mark,
      not upper case (lower-casing does not change it), not whitespace. */
  predicate CanonicalChar(h: Host, c: char) {
    h.decompose(c) == [c] && !IsMark(c) && h.lower(c) == c && !IsSpace(c)
  }

  predicate Canonical(h: Host, key: string) {
    forall i :: 0 <= i < |key| ==> CanonicalChar(h, key[i])
  }

  /** A run of whitespace of any length becomes exactly one underscore. */
  lemma {:induction false} CollapseRun(ws: string)
    requires ws != [] && forall i :: 0 <= i < |ws| ==> IsSpace(ws[i])
    ensures CollapseSpaces(ws) == "_"
  {
    assert TrimStart(ws[1..]) == [];
  }

  /** Whitespace is only ever rewritten inside a run: cutting a key anywhere but in the middle
      of a run and collapsing the two halves gives the same result. */
  lemma {:induction false} CollapseAppend(a: string, b: string)
    requires a == [] || b == [] || !IsSpace(a[|a| - 1]) || !IsSpace(b[0])
    ensures CollapseSpaces(a + b) == CollapseSpaces(a) + CollapseSpaces(b)
    decreases |a|
  {
    if a == [] {
      assert a + b == b;
    } else if b == [] {
      assert a + b == a;
    } else if !IsSpace(a[0]) {
      assert (a + b)[1..] == a[1..] + b;
      CollapseAppend(a[1..], b);
    } else {
      assert (a + b)[1..] == a[1..] + b;
      TrimStartAppend(a[1..], b);
      var t := TrimStart(a[1..]);
      if t == [] {
        // the run at the head of `a` reaches its end, so `b` starts with a non-space
        assert IsSpace(a[|a| - 1]) by {
          if |a| > 1 { assert a[|a| - 1] == a[1..][|a| - 2]; }
        }
        assert TrimStart(b) == b;
        assert CollapseSpaces(a) == "_";
      } else {
        assert t[|t| - 1] == a[|a| - 1];
        CollapseAppend(t, b);
        assert CollapseSpaces(a + b) == "_" + CollapseSpaces(t + b);
      }
    }
  }

  /** Trimming a concatenation trims the first part when it holds a non-space. */
  lemma {:induction false} TrimStartAppend(a: string, b: string)
    ensures TrimStart(a) != [] ==> TrimStart(a + b) == TrimStart(a) + b
    ensures TrimStart(a) == [] ==> TrimStart(a + b) == TrimStart(b)
  {
    if a != [] {
      assert (a + b)[1..] == a[1..] + b;
      if IsSpace(a[0]) {
        TrimStartAppend(a[1..], b);
      }
    } else {
      assert a + b == b;
    }
  }

  /** A key without whitespace is left alone by the whitespace rewrite. */
  lemma {:induction false} CollapseSpaceFree(s: string)
    requires forall i :: 0 <= i < |s| ==> !IsSpace(s[i])
    ensures CollapseSpaces(s) == s
  {
    if s != [] {
      CollapseSpaceFree(s[1..]);
    }
  }

  /** Under a valid host, every character NFD produces is itself fully decomposed. */
  lemma {:induction false} DecomposedIsStable(h: Host, s: string)
    requires ValidHost(h)
    ensures forall i :: 0 <= i < |Decompose(h, s)| ==>
              h.decompose(Decompose(h, s)[i]) == [Decompose(h, s)[i]]
  {
    if s != [] {
      DecomposedIsStable(h, s[1..]);
      var d := h.decompose(s[0]);
      var r := Decompose(h, s);
      assert r == d + Decompose(h, s[1..]);
      forall i | 0 <= i < |r| ensures h.decompose(r[i]) == [r[i]] {
        if i < |d| {
          assert r[i] == d[i];
        } else {
          assert r[i] == Decompose(h, s[1..])[i - |d|];
        }
      }
    }
  }

  /** The whitespace rewrite keeps a key canonical when every non-space character of it is
      canonical: it leaves no whitespace and adds nothing but underscores. */
  lemma {:induction false} CollapseCanonical(h: Host, s: string)
    requires CanonicalChar(h, '_')
    requires forall i :: 0 <= i < |s| && !IsSpace(s[i]) ==> CanonicalChar(h, s[i])
    ensures Canonical(h, CollapseSpaces(s))
    decreases |s|
  {
    if s != [] {
      var t := if IsSpace(s[0]) then TrimStart(s[1..]) else s[1..];
      assert forall k :: 0 <= k < |t| ==> t[k] == s[|s| - |t| + k];
      CollapseCanonical(h, t);
      var head := if IsSpace(s[0]) then "_" else [s[0]];
      assert CollapseSpaces(s) == head + CollapseSpaces(t);
    }
  }

  /** Every normalised key is canonical: no whitespace, no combining mark, no upper-case
      letter, nothing left to decompose. */
  lemma NormalizeKeyCanonical(h: Host, key: string)
    requires ValidHost(h)
    ensures Canonical(h, NormalizeKey(h, key))
  {
    var d := Decompose(h, key);
    var s := StripMarks(d);
    var l := LowerCase(h, s);
    DecomposedIsStable(h, key);
    forall i | 0 <= i < |l| && !IsSpace(l[i]) ensures CanonicalChar(h, l[i]) {
      assert s[i] in d && !IsMark(s[i]);
      var c := s[i];
      assert h.decompose(c) == [c];
      assert h.lower(h.lower(c)) == h.lower(c);
    }
    assert CanonicalChar(h, '_');
    CollapseCanonical(h, l);
  }

  /** Normalising a canonical key returns it unchanged. */
  lemma {:induction false} CanonicalIsFixed(h: Host, key: string)
    requires Canonical(h, key)
    ensures NormalizeKey(h, key) == key
  {
    StripMarksCanonical(h, key);
    assert LowerCase(h, key) == key;
    CollapseSpaceFree(key);
  }

  lemma {:induction false} StripMarksCanonical(h: Host, key: string)
    requires Canonical(h, key)
    ensures StripMarks(key) == key
  {
    if key != [] {
      StripMarksCanonical(h, key[1..]);
      assert key == [key[0]] + key[1..];
    }
  }

  /** Key normalisation is idempotent. */
  lemma NormalizeKeyIdempotent(h: Host, key: string)
    requires ValidHost(h)
    ensures NormalizeKey(h, NormalizeKey(h, key)) == NormalizeKey(h, key)
  {
    NormalizeKeyCanonical(h, key);
    CanonicalIsFixed(h, NormalizeKey(h, key));
  }

  /** A whitespace run in front of a part that starts with a non-space becomes one `_`. */
  lemma CollapseLeadingRun(ws: string, b: string)
    requires ws != [] && forall i :: 0 <= i < |ws| ==> IsSpace(ws[i])
    requires b == [] || !IsSpace(b[0])
    ensures CollapseSpaces(ws + b) == "_" + CollapseSpaces(b)
  {
    CollapseAppend(ws, b);
    CollapseRun(ws);
  }

  /** A maximal whitespace run between two non-space parts becomes exactly one `_`. */
  lemma CollapseRunBetween(a: string, ws: string, b: string)
    requires ws != [] && forall i :: 0 <= i < |ws| ==> IsSpace(ws[i])
    requires a == [] || !IsSpace(a[|a| - 1])
    requires b == [] || !IsSpace(b[0])
    ensures CollapseSpaces(a + (ws + b)) == CollapseSpaces(a) + ("_" + CollapseSpaces(b))
  {
    CollapseLeadingRun(ws, b);
    CollapseAppend(a, ws + b);
  }

  /** The dictionary a loop writing each entry under `canon` of its key has built after
      the given entries: a later entry overwrites an earlier one. */
  function Collect(canon: string -> string, entries: seq<(string, Value)>): map<string, Value>
  {
    if entries == [] then map[]
    else
      var last := entries[|entries| - 1];
      Collect(canon, entries[..|entries| - 1])[canon(last.0) := last.1]
  }

  /** `NormalizeKey` under a given host, as a function value. */
  function Canon(h: Host): string -> string
  {
    k => NormalizeKey(h, k)
  }

  /** The dictionary the loop of `normalizeKeys` has built after the given entries. */
  function NormalizedEntries(h: Host, entries: seq<(string, Value)>): map<string, Value>
  {
    Collect(Canon(h), entries)
  }

  /** `normalizeKeys(obj)`: an object's entries, normalised; `{}` for anything that is not
      an object (null, a number, a string, a boolean). */
  function NormalizeAnswers(h: Host, obj: Value): (r: map<string, Value>)
    ensures !obj.JObject? ==> r == map[]
    ensures obj.JObject? ==>
      r.Keys == (set i | 0 <= i < |obj.entries| :: NormalizeKey(h, obj.entries[i].0)) &&
      |r| <= |obj.entries|
  {
    match obj
    case JObject(entries) =>
      NormalizedEntriesSpec(h, entries);
      NormalizedEntries(h, entries)
    case _ => map[]
  }

  /** The loop of `normalizeKeys`, writing into the dictionary in place. */
  method NormalizeKeys(h: Host, obj: Value) returns (normalized: map<string, Value>)
    ensures normalized == NormalizeAnswers(h, obj)
    ensures !obj.JObject? ==> normalized == map[]
  {
    normalized := map[];
    if obj.JObject? {
      var entries := obj.entries;
      for i := 0 to |entries|
        invariant normalized == NormalizedEntries(h, entries[..i])
      {
        var (key, value) := entries[i];
        var cleanKey := NormalizeKey(h, key);
        normalized := normalized[cleanKey := value];
        assert entries[..i + 1][..i] == entries[..i];
      }
      assert entries[..|entries|] == entries;
    }
  }

  /** The output keys are exactly the images of the input keys. */
  lemma {:induction false} CollectKeys(canon: string -> string, entries: seq<(string, Value)>)
    ensures Collect(canon, entries).Keys == set i | 0 <= i < |entries| :: canon(entries[i].0)
  {
    if entries != [] {
      var n := |entries| - 1;
      var init := entries[..n];
      CollectKeys(canon, init);
      var kn := canon(entries[n].0);
      var before := set i | 0 <= i < n :: canon(init[i].0);
      var all := set i | 0 <= i < |entries| :: canon(entries[i].0);
      assert all == before + {kn} by {
        forall k | k in all ensures k in before || k == kn {
          var i :| 0 <= i < |entries| && k == canon(entries[i].0);
          if i < n {
            assert init[i] == entries[i];
          }
        }
        forall k | k in before ensures k in all {
          var i :| 0 <= i < n && k == canon(init[i].0);
          assert init[i] == entries[i];
        }
      }
    }
  }

  /** When several keys have the same image, the value of the last of them in enumeration
      order is the one kept. */
  lemma {:induction false} CollectLastWins(canon: string -> string, entries: seq<(string, Value)>, i: nat)
    requires i < |entries|
    requires forall j :: i < j < |entries| ==> canon(entries[j].0) != canon(entries[i].0)
    ensures canon(entries[i].0) in Collect(canon, entries)
    ensures Collect(canon, entries)[canon(entries[i].0)] == entries[i].1
  {
    var n := |entries| - 1;
    if i < n {
      assert entries[..n][i] == entries[i];
      CollectLastWins(canon, entries[..n], i);
    }
  }

  /** Collisions can only shrink the dictionary. */
  lemma {:induction false} CollectSize(canon: string -> string, entries: seq<(string, Value)>)
    ensures |Collect(canon, entries)| <= |entries|
  {
    if entries != [] {
      CollectSize(canon, entries[..|entries| - 1]);
    }
  }

  /** `normalizeKeys`: the output keys are exactly the canonical forms of the input keys,
      the last entry of each canonical key gives its value, and the output is no larger
      than the input. */
  lemma NormalizedEntriesSpec(h: Host, entries: seq<(string, Value)>)
    ensures NormalizedEntries(h, entries).Keys ==
            set i | 0 <= i < |entries| :: NormalizeKey(h, entries[i].0)
    ensures |NormalizedEntries(h, entries)| <= |entries|
    ensures forall i :: 0 <= i < |entries| &&
                        (forall j :: i < j < |entries| ==>
                           NormalizeKey(h, entries[j].0) != NormalizeKey(h, entries[i].0))
                        ==> NormalizedEntries(h, entries)[NormalizeKey(h, entries[i].0)] == entries[i].1
  {
    var canon := Canon(h);
    CollectKeys(canon, entries);
    CollectSize(canon, entries);
    assert (set i | 0 <= i < |entries| :: canon(entries[i].0)) ==
           (set i | 0 <= i < |entries| :: NormalizeKey(h, entries[i].0));
    forall i | 0 <= i < |entries| &&
               (forall j :: i < j < |entries| ==>
                  NormalizeKey(h, entries[j].0) != NormalizeKey(h, entries[i].0))
      ensures NormalizedEntries(h, entries)[NormalizeKey(h, entries[i].0)] == entries[i].1
    {
      CollectLastWins(canon, entries, i);
    }
  }
}
