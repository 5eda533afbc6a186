/**
 The HTTP field table that guests edit through system calls: the first fields hold
 the protocol line, the rest are `Name: value` header fields. Names compare without
 case, as section 5.1 of RFC 9110 requires.
 */
module HttpFields {

  const HDR_FIRST: nat := 5
  const NUL := 0 as char

  type Text = seq<char>

  datatype Field = Field(text: Text, flags: nat)

  /** The index of a field (0 for none), the mark for a full table, or an exception. */
  datatype Result = Index(value: nat) | HdrInvalid | Error

  function Lower(c: char): char {
    if 'A' <= c <= 'Z' then (c as int + 32) as char else c
  }

  /** `strncasecmp(a, b, l) == 0`, which stops at a terminator. */
  function SameFrom(a: Text, b: Text, i: nat, l: nat): bool
    requires i <= l <= |a| && l <= |b|
    decreases l - i
  {
    i == l || (Lower(a[i]) == Lower(b[i]) && (a[i] == NUL || SameFrom(a, b, i + 1, l)))
  }

  ghost predicate NoNul(t: Text) {
    NUL !in t
  }

  /** The two names are equal but for case. */
  ghost predicate SameName(a: Text, b: Text) {
    |a| == |b| && forall i :: 0 <= i < |a| ==> Lower(a[i]) == Lower(b[i])
  }

  lemma {:induction false} SameFromIsSameName(a: Text, b: Text, i: nat, l: nat)
    requires i <= l <= |a| && l <= |b| && NoNul(a[..l])
    ensures SameFrom(a, b, i, l) <==> SameName(a[i..l], b[i..l])
    decreases l - i
  {
    if i < l {
      assert a[i] == a[..l][i];
      SameFromIsSameName(a, b, i + 1, l);
      assert a[i..l] == [a[i]] + a[i + 1..l] && b[i..l] == [b[i]] + b[i + 1..l];
      if SameName(a[i..l], b[i..l]) {
        var a1, b1 := a[i + 1..l], b[i + 1..l];
        forall j | 0 <= j < |a1| ensures Lower(a1[j]) == Lower(b1[j]) {
          assert a1[j] == a[i..l][j + 1] && b1[j] == b[i..l][j + 1];
        }
        assert a[i..l][0] == a[i] && b[i..l][0] == b[i];
      }
    }
  }

  /** The field is a header with the first `l` characters of `hdr` as its name. */
  predicate Matches(text: Text, hdr: Text, l: nat)
    requires l <= |hdr|
  {
    l + 1 <= |text| && text[l] == ':' && SameFrom(hdr, text, 0, l)
  }

  /** The first header field with the name, or 0. */
  function Find(fields: seq<Field>, hdr: Text, l: nat): (u: nat)
    requires l <= |hdr|
    ensures u == 0 || HDR_FIRST <= u < |fields|
    ensures u != 0 ==> Matches(fields[u].text, hdr, l)
    ensures forall i :: HDR_FIRST <= i < (if u != 0 then u else |fields|) ==> !Matches(fields[i].text, hdr, l)
  {
    FindFrom(fields, hdr, l, HDR_FIRST)
  }

  function FindFrom(fields: seq<Field>, hdr: Text, l: nat, k: nat): (u: nat)
    requires l <= |hdr| && k > 0
    ensures u == 0 || k <= u < |fields|
    ensures u != 0 ==> Matches(fields[u].text, hdr, l)
    ensures forall i :: k <= i < (if u != 0 then u else |fields|) ==> !Matches(fields[i].text, hdr, l)
    decreases |fields| - k
  {
    if k >= |fields| then 0 else if Matches(fields[k].text, hdr, l) then k else FindFrom(fields, hdr, l, k + 1)
  }

  /** The position of the first colon, or the length. */
  function Colon(t: Text): (k: nat)
    ensures k <= |t| && (k < |t| ==> t[k] == ':')
    ensures forall i :: 0 <= i < k ==> t[i] != ':'
  {
    if t == [] || t[0] == ':' then 0 else 1 + Colon(t[1..])
  }

  /** What the field validator lets through. */
  predicate ValidField(t: Text) {
    var k := Colon(t);
    4 <= |t| < 0x10000 && 0 < k < |t| - 1 && t[k + 1] == ' ' && t[0] != ' ' && t[|t| - 1] != ' '
  }

  /** The characters the name validator looks up, with a terminator in third place. */
  const ILLEGAL: Text := [':', ' ', NUL, 8 as char, 27 as char, 12 as char, '\t', '\r', '\n']

  /** `strchr(s, c) != nullptr`: the search ends at the first terminator, which is itself found. */
  predicate StrChr(s: Text, c: char) {
    if s == [] || s[0] == NUL then c == NUL else s[0] == c || StrChr(s[1..], c)
  }

  /** What the name validator lets through. */
  predicate ValidKey(t: Text) {
    1 <= |t| < 0x10000 && forall i :: 0 <= i < |t| ==> !StrChr(ILLEGAL, t[i])
  }

  /** `http_SetH` stores a C string: the text ends at its first terminator. */
  function CString(t: Text): (r: Text)
    ensures NoNul(t) ==> r == t
    ensures NoNul(r)
  {
    if t == [] || t[0] == NUL then [] else [t[0]] + CString(t[1..])
  }

  /** The table after an append, and its result. */
  function AppendTo(fields: seq<Field>, max: nat, val: Text): (seq<Field>, Result) {
    if |fields| >= max then (fields, HdrInvalid)
    else if !ValidField(val) then (fields, Error)
    else (fields + [Field(CString(val), 0)], Index(|fields|))
  }

  /** The table after a set or unset, and its result; `workspace` tells whether the buffer could be allocated. */
  function SetIn(fields: seq<Field>, max: nat, what: Text, workspace: bool): (seq<Field>, Result) {
    if |what| == 0 then (fields, Index(0))
    else if |what| > 0xFFFF || !workspace then (fields, Error)
    else if Colon(what) < |what| then
      if !ValidField(what) then (fields, Error)
      else
        var index := Find(fields, what, Colon(what));
        if index > 0 then (fields[index := fields[index].(text := what)], Index(index))
        else AppendTo(fields, max, what)
    else
      var index := Find(fields, what, |what|);
      if index > 0 then (fields[..index] + fields[index + 1..], Index(index)) else (fields, Index(0))
  }

  /** The fields of `from` that match are appended in order, until one is refused with an exception. */
  function CopyMatching(from: seq<Field>, fields: seq<Field>, max: nat, matches: Text -> bool): (seq<Field>, nat, bool)
    decreases |from|
  {
    if from == [] then (fields, 0, true)
    else if !matches(from[0].text) then CopyMatching(from[1..], fields, max, matches)
    else
      var (next, result) := AppendTo(fields, max, from[0].text);
      if result.Error? then (next, 0, false)
      else
        var (final, n, ok) := CopyMatching(from[1..], next, max, matches);
        (final, n + (if result.Index? then 1 else 0), ok)
  }

  class HttpTable {
    const fieldsMax: nat
    var fields: seq<Field>

    constructor (fieldsMax: nat, fields: seq<Field>)
      ensures this.fieldsMax == fieldsMax && this.fields == fields
    {
      this.fieldsMax, this.fields := fieldsMax, fields;
    }

    method FindHdr(l: nat, hdr: Text) returns (u: nat)
      requires l <= |hdr|
      ensures u == Find(fields, hdr, l)
    {
      u := HDR_FIRST;
      while u < |fields|
        invariant u >= HDR_FIRST
        invariant Find(fields, hdr, l) == FindFrom(fields, hdr, l, u)
      {
        if l + 1 <= |fields[u].text| && fields[u].text[l] == ':' && SameFrom(hdr, fields[u].text, 0, l) {
          return u;
        }
        u := u + 1;
      }
      return 0;
    }

    method UnsetAt(idx: nat)
      requires HDR_FIRST <= idx < |fields|
      modifies this
      ensures fields == old(fields)[..idx] + old(fields)[idx + 1..]
    {
      fields := fields[..idx] + fields[idx + 1..];
    }

    method FindColon(t: Text) returns (k: nat)
      ensures k == Colon(t)
    {
      k := 0;
      while k < |t| && t[k] != ':'
        invariant k <= |t| && Colon(t) == k + Colon(t[k..])
      {
        assert t[k..][1..] == t[k + 1..];
        k := k + 1;
      }
    }

    method Validate(t: Text) returns (ok: bool)
      ensures ok == ValidField(t)
    {
      if |t| < 4 || |t| >= 0x10000 {
        return false;
      }
      var k := FindColon(t);
      if k == |t| || k == 0 || k == |t| - 1 || t[k + 1] != ' ' {
        return false;
      }
      return t[0] != ' ' && t[|t| - 1] != ' ';
    }

    method ValidateKey(t: Text) returns (ok: bool)
      ensures ok == ValidKey(t)
    {
      if |t| < 1 || |t| >= 0x10000 {
        return false;
      }
      for i := 0 to |t|
        invariant forall j :: 0 <= j < i ==> !StrChr(ILLEGAL, t[j])
      {
        if StrChr(ILLEGAL, t[i]) {
          return false;
        }
      }
      return true;
    }

    method Append(val: Text) returns (result: Result)
      modifies this
      ensures (fields, result) == AppendTo(old(fields), fieldsMax, val)
    {
      if |fields| >= fieldsMax {
        return HdrInvalid;
      }
      var ok := Validate(val);
      if !ok {
        return Error;
      }
      fields := fields + [Field(CString(val), 0)];
      return Index(|fields| - 1);
    }

    method HttpSet(what: Text, workspace: bool) returns (result: Result)
      modifies this
      ensures (fields, result) == SetIn(old(fields), fieldsMax, what, workspace)
    {
      if |what| == 0 {
        return Index(0);
      }
      if |what| > 0xFFFF || !workspace {
        return Error;
      }
      var colon := FindColon(what);
      if colon < |what| {
        var ok := Validate(what);
        if !ok {
          return Error;
        }
        var index := FindHdr(colon, what);
        if index > 0 {
          fields := fields[index := fields[index].(text := what)];
          return Index(index);
        }
        result := Append(what);
      } else {
        var index := FindHdr(|what|, what);
        if index > 0 {
          UnsetAt(index);
        }
        return Index(index);
      }
    }

    /** Source and destination may be the same table; only the fields present at the start are visited. */
    method RegexCopyTo(src: HttpTable, matches: Text -> bool) returns (appended: nat, ok: bool)
      requires HDR_FIRST <= |src.fields|
      modifies this
      ensures (fields, appended, ok) == CopyMatching(old(src.fields)[HDR_FIRST..], old(fields), fieldsMax, matches)
      ensures src != this ==> src.fields == old(src.fields)
    {
      var cnt := |src.fields|;
      ghost var source := src.fields;
      appended, ok := 0, true;
      var u := HDR_FIRST;
      while u < cnt
        invariant HDR_FIRST <= u <= cnt == |source|
        invariant |src.fields| >= cnt && src.fields[..cnt] == source
        invariant src != this ==> src.fields == source
        invariant CopyMatching(source[HDR_FIRST..], old(fields), fieldsMax, matches) ==
                  var (f, n, o) := CopyMatching(source[u..], fields, fieldsMax, matches); (f, appended + n, o)
      {
        assert source[u..][1..] == source[u + 1..] && src.fields[u] == source[u];
        if matches(src.fields[u].text) {
          var result := Append(src.fields[u].text);
          if result.Error? {
            return appended, false;
          }
          if result.Index? {
            appended := appended + 1;
          }
        }
        u := u + 1;
      }
    }
  }

  // ---- Runs of operations ----

  datatype Op = DoAppend(val: Text) | DoSet(what: Text, workspace: bool)

  function Step(fields: seq<Field>, max: nat, op: Op): seq<Field> {
    match op
    case DoAppend(val) => AppendTo(fields, max, val).0
    case DoSet(what, workspace) => SetIn(fields, max, what, workspace).0
  }

  function Run(fields: seq<Field>, max: nat, ops: seq<Op>): seq<Field> {
    if ops == [] then fields else Step(Run(fields, max, ops[..|ops| - 1]), max, ops[|ops| - 1])
  }

  /** The table has grown out of `start` by guest operations. */
  ghost predicate Derived(start: seq<Field>, fields: seq<Field>, max: nat) {
    && HDR_FIRST <= |start| <= max && HDR_FIRST <= |fields| <= max
    && fields[..HDR_FIRST] == start[..HDR_FIRST]
    && forall i :: HDR_FIRST <= i < |fields| ==> fields[i] in start || ValidField(fields[i].text)
  }

  // ---- Terminators inside a text ----

  /** The position of the first terminator, or the length. */
  function FirstNul(t: Text): (z: nat)
    ensures z <= |t| && (z < |t| ==> t[z] == NUL)
    ensures forall i :: 0 <= i < z ==> t[i] != NUL
  {
    if t == [] || t[0] == NUL then 0 else 1 + FirstNul(t[1..])
  }

  lemma {:induction false} StoredPrefix(t: Text)
    ensures CString(t) == t[..FirstNul(t)]
  {
    if t != [] && t[0] != NUL {
      StoredPrefix(t[1..]);
    }
  }

  lemma ColonIs(t: Text, k: nat)
    requires k <= |t| && (k < |t| ==> t[k] == ':') && (forall i :: 0 <= i < k ==> t[i] != ':')
    ensures Colon(t) == k
  {
  }

  lemma ColonOfPrefix(t: Text, z: nat)
    requires z <= |t|
    ensures Colon(t[..z]) == if Colon(t) < z then Colon(t) else z
  {
    ColonIs(t[..z], if Colon(t) < z then Colon(t) else z);
  }

  /** Enough of a text lies before its first terminator, and it does not end in a space there. */
  predicate Survives(t: Text) {
    var z := FirstNul(t);
    z >= 4 && Colon(t) + 1 < z && t[z - 1] != ' '
  }

  /** Of a text that passed the validator, what an append stores passes it if and only if the text survives. */
  lemma StoredValid(val: Text)
    requires ValidField(val)
    ensures ValidField(CString(val)) <==> Survives(val)
  {
    StoredPrefix(val);
    ColonOfPrefix(val, FirstNul(val));
  }

  /** A text without terminators survives. */
  lemma PlainSurvives(val: Text)
    requires ValidField(val) && NoNul(val)
    ensures Survives(val)
  {
    assert FirstNul(val) == |val|;
  }

  /** A text with a terminator inside passes the validator and yet leaves a field behind that does not. */
  lemma NulDefeatsValidator()
    ensures var val := "A: " + [NUL] + "b";
            var start := seq(HDR_FIRST, i => Field("", 0));
            && ValidField(val)
            && AppendTo(start, 8, val).1 == Index(HDR_FIRST)
            && !ValidField(AppendTo(start, 8, val).0[HDR_FIRST].text)
  {
    var val := "A: " + [NUL] + "b";
    ColonIs(val, 1);
    assert val[3] == NUL;
    StoredValid(val);
  }

  // ---- What a guest cannot do ----

  /** The text that an operation appends to the table, if it does. */
  predicate Appends(fields: seq<Field>, max: nat, op: Op) {
    match op
    case DoAppend(val) => |fields| < max && ValidField(val)
    case DoSet(what, workspace) =>
      0 < |what| <= 0xFFFF && workspace && ValidField(what) && Find(fields, what, Colon(what)) == 0 && |fields| < max
  }

  /** What an operation appends survives, or is the text of an original field. A replacing set keeps its whole text. */
  predicate Sound(start: seq<Field>, fields: seq<Field>, max: nat, op: Op) {
    Appends(fields, max, op) ==>
      var val := if op.DoAppend? then op.val else op.what;
      Survives(val) || Field(CString(val), 0) in start
  }

  lemma AppendExact(start: seq<Field>, fields: seq<Field>, max: nat, val: Text)
    requires Derived(start, fields, max)
    ensures Derived(start, AppendTo(fields, max, val).0, max) <==>
              (|fields| < max && ValidField(val) ==> Survives(val) || Field(CString(val), 0) in start)
  {
    if |fields| < max && ValidField(val) {
      StoredValid(val);
      var after := AppendTo(fields, max, val).0;
      assert after[|fields|] == Field(CString(val), 0);
    }
  }

  lemma UnsetKeeps(start: seq<Field>, fields: seq<Field>, max: nat, index: nat)
    requires Derived(start, fields, max) && HDR_FIRST <= index < |fields|
    ensures Derived(start, fields[..index] + fields[index + 1..], max)
  {
    var after := fields[..index] + fields[index + 1..];
    forall i | HDR_FIRST <= i < |after| ensures after[i] in start || ValidField(after[i].text) {
      assert after[i] == fields[if i < index then i else i + 1];
    }
  }

  lemma ReplaceKeeps(start: seq<Field>, fields: seq<Field>, max: nat, index: nat, what: Text)
    requires Derived(start, fields, max) && HDR_FIRST <= index < |fields| && ValidField(what)
    ensures Derived(start, fields[index := fields[index].(text := what)], max)
  {
  }

  /** One operation keeps the table derived if and only if what it appends is sound. */
  lemma StepExact(start: seq<Field>, fields: seq<Field>, max: nat, op: Op)
    requires Derived(start, fields, max)
    ensures Derived(start, Step(fields, max, op), max) <==> Sound(start, fields, max, op)
  {
    match op
    case DoAppend(val) => AppendExact(start, fields, max, val);
    case DoSet(what, workspace) =>
      if |what| == 0 || |what| > 0xFFFF || !workspace {
      } else if Colon(what) == |what| {
        var index := Find(fields, what, |what|);
        if index > 0 {
          UnsetKeeps(start, fields, max, index);
        }
      } else if ValidField(what) {
        var index := Find(fields, what, Colon(what));
        if index > 0 {
          ReplaceKeeps(start, fields, max, index, what);
        } else {
          AppendExact(start, fields, max, what);
        }
      }
  }

  /** Every operation of a run is sound where it is made. */
  ghost predicate SoundRun(start: seq<Field>, max: nat, ops: seq<Op>) {
    ops != [] ==>
      var before := ops[..|ops| - 1];
      SoundRun(start, max, before) && Sound(start, Run(start, max, before), max, ops[|ops| - 1])
  }

  /** The table is derived from the first one at every point of a run. */
  ghost predicate DerivedThroughout(start: seq<Field>, max: nat, ops: seq<Op>) {
    && Derived(start, Run(start, max, ops), max)
    && (ops != [] ==> DerivedThroughout(start, max, ops[..|ops| - 1]))
  }

  /**
   Over any sequence of appends, sets and unsets: the count stays within the table, the
   protocol fields never change, and every other field is one of the original fields or
   passes the validator, all of it at every point, if and only if every appended text is
   sound.
   */
  lemma {:induction false} RunExact(start: seq<Field>, max: nat, ops: seq<Op>)
    requires HDR_FIRST <= |start| <= max
    ensures DerivedThroughout(start, max, ops) <==> SoundRun(start, max, ops)
  {
    if ops != [] {
      var before := ops[..|ops| - 1];
      RunExact(start, max, before);
      if SoundRun(start, max, before) {
        StepExact(start, Run(start, max, before), max, ops[|ops| - 1]);
      }
    }
  }

  ghost predicate NoNulOp(op: Op) {
    match op
    case DoAppend(val) => NoNul(val)
    case DoSet(what, _) => NoNul(what)
  }

  /** In particular, without terminators. */
  lemma {:induction false} RunKeeps(start: seq<Field>, max: nat, ops: seq<Op>)
    requires HDR_FIRST <= |start| <= max
    requires forall i :: 0 <= i < |ops| ==> NoNulOp(ops[i])
    ensures SoundRun(start, max, ops) && Derived(start, Run(start, max, ops), max)
  {
    RunExact(start, max, ops);
    if ops != [] {
      var before, op := ops[..|ops| - 1], ops[|ops| - 1];
      RunKeeps(start, max, before);
      if Appends(Run(start, max, before), max, op) {
        PlainSurvives(if op.DoAppend? then op.val else op.what);
      }
    }
    RunExact(start, max, ops);
  }

  // ---- Set, then find ----

  lemma {:induction false} NameIsCaseInsensitive(a: Text, b: Text, text: Text, l: nat)
    requires l <= |a| && l <= |b| && l <= |text| && NoNul(a[..l]) && NoNul(b[..l])
    requires SameName(a[..l], b[..l])
    ensures SameFrom(a, text, 0, l) == SameFrom(b, text, 0, l)
  {
    SameFromIsSameName(a, text, 0, l);
    SameFromIsSameName(b, text, 0, l);
    assert a[0..l] == a[..l] && b[0..l] == b[..l];
  }

  lemma SameToItself(a: Text, l: nat)
    requires l <= |a| && NoNul(a)
    ensures SameFrom(a, a, 0, l)
  {
    SameFromIsSameName(a, a, 0, l);
  }

  lemma SpellingIrrelevant(text: Text, name: Text, what: Text)
    requires NoNul(name) && NoNul(what) && |name| <= |what| && SameName(name, what[..|name|])
    ensures Matches(text, name, |name|) == Matches(text, what, |name|)
  {
    if |name| + 1 <= |text| {
      assert NoNul(what[..|name|]);
      assert name[..|name|] == name;
      NameIsCaseInsensitive(name, what, text, |name|);
    }
  }

  /** The first match is found, whatever the spelling. */
  lemma FirstMatchFound(fields: seq<Field>, name: Text, what: Text, index: nat)
    requires NoNul(name) && NoNul(what) && |name| <= |what| && SameName(name, what[..|name|])
    requires HDR_FIRST <= index < |fields| && Matches(fields[index].text, what, |name|)
    requires forall i :: HDR_FIRST <= i < index ==> !Matches(fields[i].text, what, |name|)
    ensures Find(fields, name, |name|) == index
  {
    forall i | HDR_FIRST <= i <= index
      ensures Matches(fields[i].text, name, |name|) == Matches(fields[i].text, what, |name|)
    {
      SpellingIrrelevant(fields[i].text, name, what);
    }
  }

  /** A successful set puts the text in one place, over the field that is replaced or at the end. */
  lemma SetPlaces(fields: seq<Field>, max: nat, what: Text)
    requires HDR_FIRST <= |fields| && NoNul(what) && Colon(what) < |what| && SetIn(fields, max, what, true).1.Index?
    ensures var (after, result) := SetIn(fields, max, what, true);
            && result.value < |after| && after[result.value].text == what
            && |after| == (if result.value < |fields| then |fields| else |fields| + 1)
            && (forall i :: 0 <= i < |fields| && i != result.value ==> after[i] == fields[i])
  {
  }

  /**
   A successful set is what the next lookup of that name returns, in any spelling,
   and every other field keeps its place and value.
   */
  lemma SetThenFind(fields: seq<Field>, max: nat, what: Text, name: Text)
    requires HDR_FIRST <= |fields| && NoNul(what) && NoNul(name)
    requires Colon(what) < |what| && SetIn(fields, max, what, true).1.Index?
    requires SameName(name, what[..Colon(what)])
    ensures var (after, result) := SetIn(fields, max, what, true);
            && result.value < |after| && after[result.value].text == what
            && Find(after, name, |name|) == result.value
            && |after| == (if result.value < |fields| then |fields| else |fields| + 1)
            && (forall i :: 0 <= i < |fields| && i != result.value ==> after[i] == fields[i])
  {
    var (after, result) := SetIn(fields, max, what, true);
    SetPlaces(fields, max, what);
    SameToItself(what, Colon(what));
    FirstMatchFound(after, name, what, result.value);
  }

  /** In the table without its first match a lookup finds nothing if and only if there was no second one. */
  lemma SecondMatch(fields: seq<Field>, after: seq<Field>, index: nat, name: Text)
    requires HDR_FIRST <= index < |fields| && after == fields[..index] + fields[index + 1..]
    requires forall i :: HDR_FIRST <= i < index ==> !Matches(fields[i].text, name, |name|)
    ensures Find(after, name, |name|) == 0 <==>
              forall j :: index < j < |fields| ==> !Matches(fields[j].text, name, |name|)
  {
    var u := Find(after, name, |name|);
    if u == 0 {
      forall j | index < j < |fields| ensures !Matches(fields[j].text, name, |name|) {
        assert after[j - 1] == fields[j];
      }
    } else {
      assert after[u] == fields[if u < index then u else u + 1];
    }
  }

  /**
   Unset removes the first field with the name and keeps all others in order. A
   lookup then finds nothing if and only if there was no second field of that name.
   */
  lemma UnsetThenFind(fields: seq<Field>, max: nat, name: Text)
    requires 0 < |name| <= 0xFFFF && Colon(name) == |name|
    requires Find(fields, name, |name|) > 0
    ensures var index := Find(fields, name, |name|);
            var (after, result) := SetIn(fields, max, name, true);
            && result == Index(index)
            && after == fields[..index] + fields[index + 1..]
            && (Find(after, name, |name|) == 0 <==>
                forall j :: index < j < |fields| ==> !Matches(fields[j].text, name, |name|))
  {
    var index := Find(fields, name, |name|);
    SecondMatch(fields, fields[..index] + fields[index + 1..], index, name);
  }

  lemma IllegalCharacters(c: char)
    ensures StrChr(ILLEGAL, c) <==> c == ':' || c == ' ' || c == NUL
  {
    assert ILLEGAL[1..][0] == ' ' && ILLEGAL[1..][1..][0] == NUL;
    assert StrChr(ILLEGAL[1..][1..], c) <==> c == NUL;
    assert StrChr(ILLEGAL[1..], c) <==> c == ' ' || c == NUL;
  }

  /**
   The terminator inside the list of illegal characters hides the rest of it: a
   name is refused exactly for its length, a colon, a space or a terminator. The
   control characters that the list goes on to name are let through.
   */
  lemma KeyRule(t: Text)
    ensures ValidKey(t) <==> 1 <= |t| < 0x10000 && ':' !in t && ' ' !in t && NUL !in t
    ensures ValidKey("X\r\n\tY")
  {
    forall c: char ensures StrChr(ILLEGAL, c) <==> c == ':' || c == ' ' || c == NUL {
      IllegalCharacters(c);
    }
  }

  // ---- Copying between tables ----

  /** The stored form of source text `j`, which is valid and matched; valid itself if and only if that text survives. */
  ghost predicate CopiedFrom(from: seq<Field>, matches: Text -> bool, text: Text, j: nat) {
    && j < |from| && matches(from[j].text) && ValidField(from[j].text)
    && text == CString(from[j].text) && (ValidField(text) <==> Survives(from[j].text))
  }

  ghost predicate Copied(from: seq<Field>, matches: Text -> bool, text: Text) {
    exists j: nat :: CopiedFrom(from, matches, text, j)
  }

  lemma CopiedLater(from: seq<Field>, matches: Text -> bool, text: Text)
    requires from != [] && Copied(from[1..], matches, text)
    ensures Copied(from, matches, text)
  {
    var j: nat :| CopiedFrom(from[1..], matches, text, j);
    assert CopiedFrom(from, matches, text, j + 1);
  }

  /** What an append adds of the first source text. */
  lemma CopiedFirst(from: seq<Field>, fields: seq<Field>, max: nat, matches: Text -> bool)
    requires from != [] && matches(from[0].text) && AppendTo(fields, max, from[0].text).1.Index?
    ensures var next := AppendTo(fields, max, from[0].text).0;
            |next| == |fields| + 1 <= max && fields <= next && Copied(from, matches, next[|fields|].text)
  {
    StoredValid(from[0].text);
    assert CopiedFrom(from, matches, AppendTo(fields, max, from[0].text).0[|fields|].text, 0);
  }

  ghost predicate AllCopied(from: seq<Field>, fields: seq<Field>, after: seq<Field>, matches: Text -> bool) {
    fields <= after && forall i :: |fields| <= i < |after| ==> Copied(from, matches, after[i].text)
  }

  lemma AllCopiedLater(from: seq<Field>, fields: seq<Field>, after: seq<Field>, matches: Text -> bool)
    requires from != [] && AllCopied(from[1..], fields, after, matches)
    ensures AllCopied(from, fields, after, matches)
  {
    forall i | |fields| <= i < |after| ensures Copied(from, matches, after[i].text) {
      CopiedLater(from, matches, after[i].text);
    }
  }

  /**
   Copying never disturbs the destination's own fields, never overfills it, adds
   as many fields as it reports, and adds only what it stores of valid texts the
   pattern matched.
   */
  lemma {:induction false} CopyKeeps(from: seq<Field>, fields: seq<Field>, max: nat, matches: Text -> bool)
    requires |fields| <= max
    ensures var (after, n, ok) := CopyMatching(from, fields, max, matches);
            |after| <= max && (ok ==> |after| == |fields| + n) && AllCopied(from, fields, after, matches)
    decreases |from|
  {
    if from != [] {
      if !matches(from[0].text) || AppendTo(fields, max, from[0].text).1.HdrInvalid? {
        CopyKeeps(from[1..], fields, max, matches);
        AllCopiedLater(from, fields, CopyMatching(from[1..], fields, max, matches).0, matches);
      } else if AppendTo(fields, max, from[0].text).1.Index? {
        var next := AppendTo(fields, max, from[0].text).0;
        CopiedFirst(from, fields, max, matches);
        CopyKeeps(from[1..], next, max, matches);
        AllCopiedLater(from, next, CopyMatching(from[1..], next, max, matches).0, matches);
      }
    }
  }
}
