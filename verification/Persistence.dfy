/** Whether a connection stays open: the merged `connection` header against the separate field
    lines of section 9.3 of RFC 9112. */
module Persistence {
  import opened Text
  import opened RequestGrammar
  import opened RequestRoundTrip

  /** The rest of the list is searched once its first element has not matched. */
  predicate HasToken(value: string, token: string)
    decreases |value|
  {
    match Find(value, ",", 0)
    case None => Lower(Trim(value)) == Lower(token)
    case Some(c) => Lower(Trim(value[..c])) == Lower(token) || HasToken(value[c + 1..], token)
  }

  predicate HasConnectionToken(r: HttpRequest, token: string) {
    CONNECTION in r.headers && HasToken(r.headers[CONNECTION], token)
  }

  predicate ShouldKeepAlive(r: HttpRequest) {
    if HasConnectionToken(r, "close") then false
    else if r.version == "HTTP/1.1" then true
    else r.version == "HTTP/1.0" && HasConnectionToken(r, "keep-alive")
  }

  // -------------------------------------------------------------- the running code

  /** `trim_ows` of the connection: drop one end character at a time. */
  method TrimEnds(input: string) returns (r: string)
    ensures r == Trim(input)
  {
    r := input;
    while r != "" && IsOws(r[0])
      invariant TrimStart(r) == TrimStart(input)
      decreases |r|
    {
      r := r[1..];
    }
    while r != "" && IsOws(r[|r| - 1])
      invariant TrimEnd(r) == Trim(input)
      decreases |r|
    {
      r := r[..|r| - 1];
    }
  }

  method AsciiIEquals(left: string, right: string) returns (same: bool)
    ensures same <==> Lower(left) == Lower(right)
  {
    if |left| != |right| {
      return false;
    }
    for i := 0 to |left|
      invariant forall j :: 0 <= j < i ==> LowerChar(left[j]) == LowerChar(right[j])
    {
      if LowerChar(left[i]) != LowerChar(right[i]) {
        assert Lower(left)[i] != Lower(right)[i];
        return false;
      }
    }
    assert forall j :: 0 <= j < |left| ==> Lower(left)[j] == Lower(right)[j];
    return true;
  }

  method FindConnectionToken(r: HttpRequest, token: string) returns (found: bool)
    ensures found <==> HasConnectionToken(r, token)
  {
    if CONNECTION !in r.headers {
      return false;
    }
    var remaining := r.headers[CONNECTION];
    while true
      invariant HasToken(remaining, token) == HasToken(r.headers[CONNECTION], token)
      decreases |remaining|
    {
      var comma := Find(remaining, ",", 0);
      var candidate := TrimEnds(if comma.None? then remaining else remaining[..comma.value]);
      var same := AsciiIEquals(candidate, token);
      if same {
        return true;
      }
      if comma.None? {
        return false;
      }
      remaining := remaining[comma.value + 1..];
    }
  }

  method KeepAlive(r: HttpRequest) returns (keep: bool)
    ensures keep <==> ShouldKeepAlive(r)
  {
    var close := FindConnectionToken(r, "close");
    if close {
      return false;
    }
    if r.version == "HTTP/1.1" {
      return true;
    }
    var keepAlive := FindConnectionToken(r, "keep-alive");
    return r.version == "HTTP/1.0" && keepAlive;
  }

  // ------------------------------------------------------------- the rule on raw fields

  /** `value[i..j]` is one whole element of the comma-separated list and names the option. */
  ghost predicate ElementIs(value: string, i: nat, j: nat, token: string) {
    && i <= j <= |value|
    && (i == 0 || value[i - 1] == ',')
    && (j == |value| || value[j] == ',')
    && (forall k :: i <= k < j ==> value[k] != ',')
    && Lower(Trim(value[i..j])) == Lower(token)
  }

  ghost predicate ListsOption(value: string, token: string) {
    exists i: nat, j: nat :: ElementIs(value, i, j, token)
  }

  /** Some `connection` field line lists the option. */
  ghost predicate RawOption(fields: seq<HeaderField>, token: string) {
    exists k :: 0 <= k < |fields| && fields[k].name == "connection" && ListsOption(fields[k].value, token)
  }

  /** Section 9.3 of RFC 9112. */
  ghost predicate Persistent(r: HttpRequest) {
    && !RawOption(r.headerFields, "close")
    && (r.version == "HTTP/1.1" || (r.version == "HTTP/1.0" && RawOption(r.headerFields, "keep-alive")))
  }

  // ------------------------------------------------------------------------- proofs

  /** The end of the first element. */
  function FirstEnd(value: string): (e: nat)
    ensures e <= |value|
  {
    FindChar(value, ',', 0);
    var comma := Find(value, ",", 0);
    if comma.None? then |value| else comma.value
  }

  lemma FirstEndIs(value: string, e: nat)
    requires e <= |value| && (e == |value| || value[e] == ',') && forall k :: 0 <= k < e ==> value[k] != ','
    ensures FirstEnd(value) == e
  {
    hide Find;
    if e == |value| {
      FindCharNone(value, ',', 0);
    } else {
      FindCharIs(value, ',', 0, e);
    }
  }

  lemma FirstEndEnds(value: string)
    ensures var e := FirstEnd(value);
            (e == |value| || value[e] == ',') && forall k :: 0 <= k < e ==> value[k] != ','
  {
    hide Find;
    FindChar(value, ',', 0);
  }

  ghost predicate Names(element: string, token: string) { Lower(Trim(element)) == Lower(token) }

  /** One element at a time. */
  lemma HasTokenFirst(value: string, token: string)
    ensures var e := FirstEnd(value);
            HasToken(value, token) <==>
            Names(value[..e], token) || (e < |value| && HasToken(value[e + 1..], token))
  {
    hide Find, Trim, Lower;
    FindChar(value, ',', 0);
    assert value[..|value|] == value;
  }

  lemma {:induction false} ScannedIsListed(value: string, token: string)
    requires HasToken(value, token)
    ensures ListsOption(value, token)
    decreases |value|
  {
    hide HasToken, Names, FirstEnd, ElementIs;
    HasTokenFirst(value, token);
    FirstEndEnds(value);
    var e := FirstEnd(value);
    if Names(value[..e], token) {
      FirstElement(value, e, token);
    } else {
      var rest := value[e + 1..];
      ScannedIsListed(rest, token);
      var i: nat, j: nat :| ElementIs(rest, i, j, token);
      ElementShift(value, e, rest, i, j, token);
    }
  }

  lemma FirstElement(value: string, e: nat, token: string)
    requires e <= |value| && (e == |value| || value[e] == ',') && forall k :: 0 <= k < e ==> value[k] != ','
    ensures Names(value[..e], token) <==> ElementIs(value, 0, e, token)
  {
    hide Trim, Lower;
    assert value[0..e] == value[..e];
  }

  lemma {:induction false} ListedIsScanned(value: string, i: nat, j: nat, token: string)
    requires ElementIs(value, i, j, token)
    ensures HasToken(value, token)
    decreases |value|
  {
    hide HasToken, Names, FirstEnd, ElementIs;
    HasTokenFirst(value, token);
    FirstEndEnds(value);
    var e := FirstEnd(value);
    FirstOrLater(value, e, i, j, token);
    if i == 0 && j == e {
      FirstElement(value, e, token);
    } else {
      var rest := value[e + 1..];
      ElementShift(value, e, rest, i - e - 1, j - e - 1, token);
      ListedIsScanned(rest, i - e - 1, j - e - 1, token);
    }
  }

  lemma TokenIsElement(value: string, token: string)
    ensures HasToken(value, token) <==> ListsOption(value, token)
  {
    hide HasToken, ElementIs;
    if HasToken(value, token) {
      ScannedIsListed(value, token);
    }
    if i: nat, j: nat :| ElementIs(value, i, j, token) {
      ListedIsScanned(value, i, j, token);
    }
  }

  lemma ElementShift(value: string, c: nat, rest: string, i: nat, j: nat, token: string)
    requires c < |value| && value[c] == ',' && rest == value[c + 1..]
    ensures ElementIs(rest, i, j, token) <==> ElementIs(value, c + 1 + i, c + 1 + j, token)
  {
    hide Trim, Lower;
    if i <= j <= |rest| {
      assert rest[i..j] == value[c + 1 + i..c + 1 + j];
      assert forall k :: i <= k < j ==> rest[k] == value[c + 1 + k];
      assert forall k :: c + 1 + i <= k < c + 1 + j ==> value[k] == rest[k - c - 1];
    }
  }

  /** An element of the list is its first element or lies behind the first comma. */
  lemma FirstOrLater(value: string, c: nat, i: nat, j: nat, token: string)
    requires c <= |value| && (c == |value| || value[c] == ',') && (forall k :: 0 <= k < c ==> value[k] != ',')
    requires ElementIs(value, i, j, token)
    ensures (i == 0 && j == c) || (c < i <= j && c < |value|)
  {
    hide Trim, Lower;
  }

  /** Appending ", " and a second list makes the options of both. */
  lemma {:induction false} JoinedLists(a: string, b: string, token: string)
    ensures HasToken(a + ", " + b, token) <==> HasToken(a, token) || HasToken(b, token)
    decreases |a|
  {
    hide HasToken, FirstEnd, Names;
    var s := a + ", " + b;
    var e := FirstEnd(a);
    FirstEndEnds(a);
    HasTokenFirst(a, token);
    assert s[e] == ',' && forall k :: 0 <= k < e ==> s[k] == a[k];
    FirstEndIs(s, e);
    HasTokenFirst(s, token);
    assert s[..e] == a[..e];
    if e == |a| {
      assert s[e + 1..] == " " + b;
      LeadingSpace(b, token);
    } else {
      assert s[e + 1..] == a[e + 1..] + ", " + b;
      JoinedLists(a[e + 1..], b, token);
    }
  }

  lemma LeadingSpace(b: string, token: string)
    ensures HasToken(" " + b, token) <==> HasToken(b, token)
  {
    hide HasToken, FirstEnd, Names;
    var s := " " + b;
    var e := FirstEnd(b);
    FirstEndEnds(b);
    HasTokenFirst(b, token);
    assert forall k :: 1 <= k < |s| ==> s[k] == b[k - 1];
    FirstEndIs(s, e + 1);
    HasTokenFirst(s, token);
    assert s[..e + 1] == " " + b[..e];
    SpacedName(b[..e], token);
    if e < |b| {
      assert s[e + 2..] == b[e + 1..];
    }
  }

  lemma SpacedName(element: string, token: string)
    ensures Names(" " + element, token) <==> Names(element, token)
  {
    hide Lower;
    assert (" " + element)[1..] == element;
  }

  ghost predicate SomeHas(values: seq<string>, token: string) {
    exists i :: 0 <= i < |values| && HasToken(values[i], token)
  }

  lemma {:induction false} JoinedValues(values: seq<string>, token: string)
    requires values != []
    ensures HasToken(JoinValues(values), token) <==> SomeHas(values, token)
  {
    hide HasToken;
    var n := |values| - 1;
    if n > 0 {
      JoinedValues(values[..n], token);
      JoinedLists(JoinValues(values[..n]), values[n], token);
      SomeHasLast(values, token);
    }
  }

  lemma SomeHasLast(values: seq<string>, token: string)
    requires values != []
    ensures SomeHas(values, token) <==>
            SomeHas(values[..|values| - 1], token) || HasToken(values[|values| - 1], token)
  {
    hide HasToken;
    var init := values[..|values| - 1];
    if SomeHas(values, token) && !HasToken(values[|values| - 1], token) {
      var i :| 0 <= i < |values| && HasToken(values[i], token);
      assert init[i] == values[i];
    }
    if SomeHas(init, token) {
      var i :| 0 <= i < |init| && HasToken(init[i], token);
      assert values[i] == init[i];
    }
  }

  lemma {:induction false} RawIsSomeValue(fields: seq<HeaderField>, token: string)
    ensures RawOption(fields, token) <==> SomeHas(ValuesOf(fields, CONNECTION), token)
  {
    hide HasToken, ListsOption;
    if fields != [] {
      var n := |fields| - 1;
      var init := fields[..n];
      RawIsSomeValue(init, token);
      RawLast(fields, token);
      var values := ValuesOf(fields, CONNECTION);
      if fields[n].name == CONNECTION {
        assert values[..|values| - 1] == ValuesOf(init, CONNECTION);
        SomeHasLast(values, token);
        TokenIsElement(fields[n].value, token);
      } else {
        assert values == ValuesOf(init, CONNECTION);
      }
    }
  }

  lemma RawLast(fields: seq<HeaderField>, token: string)
    requires fields != []
    ensures var n := |fields| - 1;
            RawOption(fields, token) <==>
            RawOption(fields[..n], token) || (fields[n].name == CONNECTION && ListsOption(fields[n].value, token))
  {
    hide ListsOption;
    var n := |fields| - 1;
    var init := fields[..n];
    if RawOption(init, token) {
      var k :| 0 <= k < n && init[k].name == CONNECTION && ListsOption(init[k].value, token);
      assert fields[k] == init[k];
    }
    if RawOption(fields, token) {
      var k :| 0 <= k < |fields| && fields[k].name == CONNECTION && ListsOption(fields[k].value, token);
      if k < n {
        assert init[k] == fields[k];
      }
    }
  }

  /** Merging the field lines into one value keeps the set of options. */
  lemma MergedOptions(r: HttpRequest, token: string)
    requires Represents(Head(r.headerFields, r.headers))
    ensures HasConnectionToken(r, token) <==> RawOption(r.headerFields, token)
  {
    hide HasToken;
    assert RepresentsName(Head(r.headerFields, r.headers), CONNECTION);
    RawIsSomeValue(r.headerFields, token);
    var values := ValuesOf(r.headerFields, CONNECTION);
    if values != [] {
      JoinedValues(values, token);
    }
  }

  /** For every request the parser returns, the decision taken on the merged map is the rule on
      the field lines as they arrived. */
  lemma PersistenceIsCorrect(buffer: string, limits: Limits)
    ensures Next(buffer, limits).RequestReady? ==>
              var r := Next(buffer, limits).request;
              ShouldKeepAlive(r) <==> Persistent(r)
  {
    hide Next;
    if Next(buffer, limits).RequestReady? {
      var r := Next(buffer, limits).request;
      ParsedIsWellFormed(buffer, limits);
      MergedOptions(r, "close");
      MergedOptions(r, "keep-alive");
    }
  }
}
