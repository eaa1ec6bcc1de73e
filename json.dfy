/**
 * Parsed JSON values, as both sides of the protocol see them once the text
 * has been parsed, and the two ways the code looks a member up: a property
 * read on the result of JSON.parse in the browser, and cJSON_GetObjectItem
 * on the server.
 */
module JsonValues {
  import opened Wrappers

  /** A parsed JSON value; objects keep their members in text order, duplicates included. */
  datatype Json =
    | JNull
    | JBool(b: bool)
    | JNum(n: int)          // numbers are integers in this model
    | JStr(s: string)
    | JArr(items: seq<Json>)
    | JObj(members: seq<Member>)

  datatype Member = Member(key: string, value: Json)

  /**
   * The value of the last member named key. JSON.parse keeps the last of
   * duplicate keys, so this is what `data.key` reads.
   */
  function LastValue(members: seq<Member>, key: string): Option<Json> {
    if members == [] then None
    else if members[|members| - 1].key == key then Some(members[|members| - 1].value)
    else LastValue(members[..|members| - 1], key)
  }

  /**
   * `v.key` on a parsed value other than null: the member of an object, and
   * undefined (None) on anything else.
   */
  function Prop(v: Json, key: string): Option<Json> {
    if v.JObj? then LastValue(v.members, key) else None
  }

  /** C tolower in the "C" locale: only A-Z change. */
  function Lower(c: char): char {
    if 'A' <= c <= 'Z' then (c as int + 32) as char else c
  }

  /** Where a C string reading from index i stops: the first NUL at or after i, or the end. */
  function NulFrom(s: string, i: nat): (k: nat)
    requires i <= |s|
    ensures i <= k <= |s| && (k < |s| ==> s[k] == '\0')
    ensures forall m :: i <= m < k ==> s[m] != '\0'
    decreases |s| - i
  {
    if i == |s| || s[i] == '\0' then i else NulFrom(s, i + 1)
  }

  /**
   * The C string a valuestring holds: the text up to its first NUL, which
   * cJSON keeps when a JSON string spells one out as \u0000.
   */
  function CText(s: string): (t: string)
    ensures t <= s && '\0' !in t
    ensures |t| < |s| ==> s[|t|] == '\0'
  {
    s[..NulFrom(s, 0)]
  }

  /** A string with no NUL in it is its own C string. */
  lemma CTextWithoutNul(s: string)
    requires '\0' !in s
    ensures CText(s) == s
  {
  }

  /**
   * case_insensitive_strcmp(a, b) == 0 from index i on, walked as cJSON's
   * loop walks its two pointers: stop at a NUL or the end, and otherwise the
   * characters must agree up to ASCII case.
   */
  predicate MatchFrom(a: string, b: string, i: nat)
    requires i <= |a| && i <= |b|
    decreases |a| - i
  {
    if i == |a| || a[i] == '\0' then i == |b| || b[i] == '\0'
    else i < |b| && b[i] != '\0' && Lower(a[i]) == Lower(b[i]) && MatchFrom(a, b, i + 1)
  }

  /** cJSON's case_insensitive_strcmp(a, b) == 0. */
  predicate SameIgnoringCase(a: string, b: string) {
    MatchFrom(a, b, 0)
  }

  lemma {:induction false} MatchFromRefl(a: string, i: nat)
    requires i <= |a|
    ensures MatchFrom(a, a, i)
    decreases |a| - i
  {
    if i < |a| && a[i] != '\0' {
      MatchFromRefl(a, i + 1);
    }
  }

  /** Every key matches itself. */
  lemma SameIgnoringCaseRefl(a: string)
    ensures SameIgnoringCase(a, a)
  {
    MatchFromRefl(a, 0);
  }

  /** From index i on, the walk succeeds exactly when both strings stop at the same place, agreeing up to case before it. */
  lemma {:induction false} MatchFromStops(a: string, b: string, i: nat)
    requires i <= |a| && i <= |b|
    ensures MatchFrom(a, b, i) <==>
      NulFrom(a, i) == NulFrom(b, i) && forall m :: i <= m < NulFrom(a, i) ==> Lower(a[m]) == Lower(b[m])
    decreases |a| - i
  {
    if i == |a| || a[i] == '\0' {
    } else if i == |b| || b[i] == '\0' {
    } else {
      MatchFromStops(a, b, i + 1);
    }
  }

  /** Two keys match exactly when their C strings have the same length and agree up to case. */
  lemma SameIgnoringCaseIsCText(a: string, b: string)
    ensures SameIgnoringCase(a, b) <==>
      |CText(a)| == |CText(b)| && forall m :: 0 <= m < |CText(a)| ==> Lower(CText(a)[m]) == Lower(CText(b)[m])
  {
    MatchFromStops(a, b, 0);
  }

  /**
   * cJSON_GetObjectItem(object, key): the first member whose name matches
   * ignoring ASCII case; NULL (None) when there is none or the value is not
   * an object.
   */
  function CItem(v: Json, key: string): Option<Json> {
    if v.JObj? then FirstValue(v.members, key) else None
  }

  function FirstValue(members: seq<Member>, key: string): Option<Json> {
    if members == [] then None
    else if SameIgnoringCase(members[0].key, key) then Some(members[0].value)
    else FirstValue(members[1..], key)
  }

  /** JavaScript truthiness of a value, undefined (None) included. */
  predicate Truthy(v: Option<Json>) {
    match v
    case None => false
    case Some(JNull) => false
    case Some(JBool(b)) => b
    case Some(JNum(n)) => n != 0
    case Some(JStr(s)) => s != []
    case Some(_) => true
  }

  /** `v || false`: v itself when truthy, false otherwise. */
  function OrFalse(v: Option<Json>): (r: Json)
    ensures Truthy(Some(r)) == Truthy(v)
  {
    if Truthy(v) then v.value else JBool(false)
  }

  /**
   * The last-wins lookup finds v exactly when some member is (key, v) and
   * no later member has that key.
   */
  lemma LastValueIsLast(members: seq<Member>, key: string, v: Json)
    ensures LastValue(members, key) == Some(v) <==>
      exists i :: 0 <= i < |members| && members[i] == Member(key, v)
                  && forall j :: i < j < |members| ==> members[j].key != key
  {
    if LastValue(members, key) == Some(v) {
      LastValueFound(members, key, v);
    }
    if exists i :: 0 <= i < |members| && members[i] == Member(key, v)
                   && forall j :: i < j < |members| ==> members[j].key != key {
      var i :| 0 <= i < |members| && members[i] == Member(key, v)
               && forall j :: i < j < |members| ==> members[j].key != key;
      LastValueAt(members, key, i);
    }
  }

  /** What the last-wins lookup finds is a member with that key and no later one. */
  lemma {:induction false} LastValueFound(members: seq<Member>, key: string, v: Json)
    requires LastValue(members, key) == Some(v)
    ensures exists i :: 0 <= i < |members| && members[i] == Member(key, v)
                        && forall j :: i < j < |members| ==> members[j].key != key
  {
    var n := |members| - 1;
    if members[n].key == key {
      assert members[n] == Member(key, v);
    } else {
      var pre := members[..n];
      LastValueFound(pre, key, v);
      var i :| 0 <= i < |pre| && pre[i] == Member(key, v) && forall j :: i < j < |pre| ==> pre[j].key != key;
      assert members[i] == Member(key, v);
    }
  }

  /** A member with no later member of the same key is what the last-wins lookup finds. */
  lemma {:induction false} LastValueAt(members: seq<Member>, key: string, i: nat)
    requires i < |members| && members[i].key == key
    requires forall j :: i < j < |members| ==> members[j].key != key
    ensures LastValue(members, key) == Some(members[i].value)
  {
    var n := |members| - 1;
    if i < n {
      var pre := members[..n];
      assert pre[i] == members[i];
      LastValueAt(pre, key, i);
    }
  }

  /** A key that no member has is undefined. */
  lemma {:induction false} LastValueAbsent(members: seq<Member>, key: string)
    ensures LastValue(members, key).None? <==> forall i :: 0 <= i < |members| ==> members[i].key != key
  {
    if members != [] {
      var pre := members[..|members| - 1];
      LastValueAbsent(pre, key);
      assert forall i :: 0 <= i < |pre| ==> pre[i] == members[i];
    }
  }

  /**
   * cJSON's lookup finds v exactly when some member whose name matches is
   * (name, v) and no earlier member's name matches.
   */
  lemma {:induction false} FirstValueIsFirst(members: seq<Member>, key: string, v: Json)
    ensures FirstValue(members, key) == Some(v) <==>
      exists i :: 0 <= i < |members| && SameIgnoringCase(members[i].key, key) && members[i].value == v
                  && forall j :: 0 <= j < i ==> !SameIgnoringCase(members[j].key, key)
  {
    if members != [] {
      var rest := members[1..];
      FirstValueIsFirst(rest, key, v);
      if !SameIgnoringCase(members[0].key, key) {
        if FirstValue(members, key) == Some(v) {
          var i :| 0 <= i < |rest| && SameIgnoringCase(rest[i].key, key) && rest[i].value == v
                   && forall j :: 0 <= j < i ==> !SameIgnoringCase(rest[j].key, key);
          assert members[i + 1] == rest[i];
          forall j | 0 <= j < i + 1 ensures !SameIgnoringCase(members[j].key, key) {
            if j > 0 {
              assert members[j] == rest[j - 1];
            }
          }
        }
        if exists i :: 0 <= i < |members| && SameIgnoringCase(members[i].key, key) && members[i].value == v
                       && forall j :: 0 <= j < i ==> !SameIgnoringCase(members[j].key, key) {
          var i :| 0 <= i < |members| && SameIgnoringCase(members[i].key, key) && members[i].value == v
                   && forall j :: 0 <= j < i ==> !SameIgnoringCase(members[j].key, key);
          assert i > 0;
          assert rest[i - 1] == members[i];
          forall j | 0 <= j < i - 1 ensures !SameIgnoringCase(rest[j].key, key) {
            assert rest[j] == members[j + 1];
          }
        }
      }
    }
  }

  /**
   * When no member before position i has a name that matches member i's,
   * cJSON's lookup of that name finds member i.
   */
  lemma {:induction false} FirstValueAt(members: seq<Member>, i: nat)
    requires i < |members|
    requires forall j :: 0 <= j < i ==> !SameIgnoringCase(members[j].key, members[i].key)
    ensures FirstValue(members, members[i].key) == Some(members[i].value)
  {
    if i > 0 {
      FirstValueAt(members[1..], i - 1);
      assert members[1..][i - 1] == members[i];
    } else {
      SameIgnoringCaseRefl(members[0].key);
    }
  }

  /** A name that no member's name matches is not found. */
  lemma {:induction false} FirstValueMissing(members: seq<Member>, key: string)
    requires forall j :: 0 <= j < |members| ==> !SameIgnoringCase(members[j].key, key)
    ensures FirstValue(members, key) == None
  {
    if members != [] {
      FirstValueMissing(members[1..], key);
    }
  }

  /** When no two keys match, every member is the one a lookup of its own key finds. */
  lemma DistinctKeysFound(members: seq<Member>)
    requires forall i, j :: 0 <= j < i < |members| ==> !SameIgnoringCase(members[j].key, members[i].key)
    ensures forall i :: 0 <= i < |members| ==> FirstValue(members, members[i].key) == Some(members[i].value)
  {
    forall i | 0 <= i < |members| ensures FirstValue(members, members[i].key) == Some(members[i].value) {
      FirstValueAt(members, i);
    }
  }
}
