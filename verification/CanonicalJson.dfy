/** Canonical JSON as a stream of tokens: sorted keys out, any key order but no duplicate in. */
module CanonicalJson {
  import opened Prelude
  import opened StringOrder

  /** A decoded document. A float is its shortest literal. */
  datatype Json =
    | Null
    | Bool(b: bool)
    | Int(n: int)
    | Float(literal: string)
    | Str(text: string)
    | Arr(items: seq<Json>)
    | Obj(fields: map<string, Json>)

  datatype Token =
    | Word(json: Json)   // null, true, false, a number or a string
    | OpenArray | CloseArray | OpenObject | CloseObject | Colon | Comma

  predicate Scalar(v: Json) {
    !v.Arr? && !v.Obj?
  }

  // ---- Keys in order ----

  ghost predicate IsLeast(x: string, s: set<string>) {
    x in s && forall y :: y in s ==> Le(x, y)
  }

  /** The least of a set without `x`, or `x` itself, is the least of the set. */
  lemma {:induction false} LeastWith(x: string, m: string, s: set<string>)
    requires x in s && IsLeast(m, s - {x})
    ensures IsLeast(if Le(x, m) then x else m, s)
  {
    LeTotal(x, x);
    LeTotal(x, m);
    forall y | y in s ensures Le(if Le(x, m) then x else m, y) {
      if y != x && Le(x, m) {
        LeTransitive(x, m, y);
      }
    }
  }

  lemma {:induction false} LeastString(s: set<string>)
    requires s != {}
    ensures exists x :: IsLeast(x, s)
  {
    var x :| x in s;
    LeTotal(x, x);
    if s - {x} == {} {
      assert s == {x};
      assert IsLeast(x, s);
    } else {
      LeastString(s - {x});
      var m :| IsLeast(m, s - {x});
      LeastWith(x, m, s);
    }
  }

  ghost function LeastOf(s: set<string>): (x: string)
    requires s != {}
    ensures x in s && forall y :: y in s ==> Le(x, y)
  {
    LeastString(s);
    var x :| IsLeast(x, s);
    x
  }

  /** The members of a set in order: sort_keys. */
  ghost function SortedKeys(s: set<string>): (keys: seq<string>)
    ensures Sorted(keys) && |keys| == |s| && forall k :: k in keys <==> k in s
    ensures forall i, j :: 0 <= i < j < |keys| ==> keys[i] != keys[j]
    decreases |s|
  {
    if s == {} then []
    else
      var x := LeastOf(s);
      var rest := SortedKeys(s - {x});
      MembersFirst(x, rest, s);
      DistinctFirst(x, rest);
      SortedFirst(x, rest);
      [x] + rest
  }

  lemma MembersFirst(x: string, rest: seq<string>, s: set<string>)
    requires x in s && |rest| == |s - {x}| && forall k :: k in rest <==> k in s - {x}
    ensures |[x] + rest| == |s| && forall k :: k in [x] + rest <==> k in s
  {
    assert s == (s - {x}) + {x};
  }

  lemma DistinctFirst(x: string, rest: seq<string>)
    requires x !in rest && forall i, j :: 0 <= i < j < |rest| ==> rest[i] != rest[j]
    ensures forall i, j :: 0 <= i < j < |[x] + rest| ==> ([x] + rest)[i] != ([x] + rest)[j]
  {
    forall i, j | 0 <= i < j < |[x] + rest| ensures ([x] + rest)[i] != ([x] + rest)[j] {
      assert ([x] + rest)[j] == rest[j - 1];
      assert i > 0 ==> ([x] + rest)[i] == rest[i - 1];
    }
  }

  lemma SortedFirst(x: string, rest: seq<string>)
    requires Sorted(rest) && forall k :: k in rest ==> Le(x, k)
    ensures Sorted([x] + rest)
  {
    var keys := [x] + rest;
    forall i, j | 0 <= i < j < |keys| ensures Le(keys[i], keys[j]) {
      assert keys[j] == rest[j - 1];
      assert keys[j] in rest;
      if i > 0 {
        assert keys[i] == rest[i - 1];
      }
    }
  }

  // ---- Encoding ----

  /** The text of `v`, followed by `rest`. */
  ghost function Write(v: Json, rest: seq<Token>): seq<Token>
    decreases v, 1, 0
  {
    match v
    case Arr(items) => [OpenArray] + WriteItems(v, items, rest)
    case Obj(fields) => [OpenObject] + WriteFields(v, fields, SortedKeys(fields.Keys), rest)
    case _ => [Word(v)] + rest
  }

  ghost function WriteItems(whole: Json, items: seq<Json>, rest: seq<Token>): seq<Token>
    requires forall i :: 0 <= i < |items| ==> items[i] < whole
    decreases whole, 0, |items|
  {
    if items == [] then [CloseArray] + rest
    else if |items| == 1 then Write(items[0], [CloseArray] + rest)
    else Write(items[0], [Comma] + WriteItems(whole, items[1..], rest))
  }

  ghost function WriteFields(whole: Json, fields: map<string, Json>, keys: seq<string>, rest: seq<Token>): seq<Token>
    requires forall i :: 0 <= i < |keys| ==> keys[i] in fields && fields[keys[i]] < whole
    decreases whole, 0, |keys|
  {
    if keys == [] then [CloseObject] + rest
    else
      var after := if |keys| == 1 then [CloseObject] + rest else [Comma] + WriteFields(whole, fields, keys[1..], rest);
      [Word(Str(keys[0]))] + ([Colon] + Write(fields[keys[0]], after))
  }

  /** canonical_json */
  ghost function Encode(v: Json): seq<Token> {
    Write(v, [])
  }

  // ---- Decoding ----

  datatype Parsed<T> = Parsed(value: T, rest: seq<Token>)

  function ParseValue(ts: seq<Token>): (p: Option<Parsed<Json>>)
    ensures p.Some? ==> |p.value.rest| < |ts|
    decreases |ts|, 0
  {
    if ts == [] then None
    else
      match ts[0]
      case Word(v) => if Scalar(v) then Some(Parsed(v, ts[1..])) else None
      case OpenArray =>
        if |ts| > 1 && ts[1].CloseArray? then Some(Parsed(Arr([]), ts[2..]))
        else
          (match ParseItems(ts[1..])
           case None => None
           case Some(p) => Some(Parsed(Arr(p.value), p.rest)))
      case OpenObject =>
        if |ts| > 1 && ts[1].CloseObject? then Some(Parsed(Obj(map[]), ts[2..]))
        else
          (match ParseFields(ts[1..], map[])
           case None => None
           case Some(p) => Some(Parsed(Obj(p.value), p.rest)))
      case _ => None
  }

  /** One item or more, up to the closing bracket. */
  function ParseItems(ts: seq<Token>): (p: Option<Parsed<seq<Json>>>)
    ensures p.Some? ==> |p.value.rest| < |ts|
    decreases |ts|, 1
  {
    match ParseValue(ts)
    case None => None
    case Some(first) =>
      if first.rest == [] then None
      else if first.rest[0].CloseArray? then Some(Parsed([first.value], first.rest[1..]))
      else if !first.rest[0].Comma? then None
      else
        match ParseItems(first.rest[1..])
        case None => None
        case Some(more) => Some(Parsed([first.value] + more.value, more.rest))
  }

  /** One field or more, up to the closing brace; a key that occurs twice is an error. */
  function ParseFields(ts: seq<Token>, seen: map<string, Json>): (p: Option<Parsed<map<string, Json>>>)
    ensures p.Some? ==> |p.value.rest| < |ts|
    decreases |ts|, 1
  {
    if |ts| < 2 || !ts[0].Word? || !ts[0].json.Str? || !ts[1].Colon? || ts[0].json.text in seen then None
    else
      match ParseValue(ts[2..])
      case None => None
      case Some(first) =>
        var now := seen[ts[0].json.text := first.value];
        if first.rest == [] then None
        else if first.rest[0].CloseObject? then Some(Parsed(now, first.rest[1..]))
        else if !first.rest[0].Comma? then None
        else ParseFields(first.rest[1..], now)
  }

  /** decode_json: one value and nothing after it. */
  function Decode(ts: seq<Token>): Option<Json> {
    match ParseValue(ts)
    case Some(p) => if p.rest == [] then Some(p.value) else None
    case None => None
  }

  // ---- Round trip ----

  lemma Cons(t: Token, rest: seq<Token>)
    ensures ([t] + rest)[0] == t && ([t] + rest)[1..] == rest && |[t] + rest| == |rest| + 1
  {
  }

  lemma ParseArray(ts: seq<Token>, items: seq<Json>, rest: seq<Token>)
    requires ts != [] && !ts[0].CloseArray? && ParseItems(ts) == Some(Parsed(items, rest))
    ensures ParseValue([OpenArray] + ts) == Some(Parsed(Arr(items), rest))
  {
    Cons(OpenArray, ts);
    assert ([OpenArray] + ts)[1] == ts[0];
  }

  lemma ParseObject(ts: seq<Token>, fields: map<string, Json>, rest: seq<Token>)
    requires ts != [] && !ts[0].CloseObject? && ParseFields(ts, map[]) == Some(Parsed(fields, rest))
    ensures ParseValue([OpenObject] + ts) == Some(Parsed(Obj(fields), rest))
  {
    Cons(OpenObject, ts);
    assert ([OpenObject] + ts)[1] == ts[0];
  }

  lemma ParseEmpty(rest: seq<Token>)
    ensures ParseValue([OpenArray] + ([CloseArray] + rest)) == Some(Parsed(Arr([]), rest))
    ensures ParseValue([OpenObject] + ([CloseObject] + rest)) == Some(Parsed(Obj(map[]), rest))
  {
    var a, b := [OpenArray] + ([CloseArray] + rest), [OpenObject] + ([CloseObject] + rest);
    assert a[1] == CloseArray && a[2..] == rest;
    assert b[1] == CloseObject && b[2..] == rest;
  }

  lemma LastItem(ts: seq<Token>, v: Json, rest: seq<Token>)
    requires ParseValue(ts) == Some(Parsed(v, [CloseArray] + rest))
    ensures ParseItems(ts) == Some(Parsed([v], rest))
  {
    Cons(CloseArray, rest);
  }

  lemma NextItem(ts: seq<Token>, v: Json, tail: seq<Token>, more: seq<Json>, rest: seq<Token>)
    requires ParseValue(ts) == Some(Parsed(v, [Comma] + tail)) && ParseItems(tail) == Some(Parsed(more, rest))
    ensures ParseItems(ts) == Some(Parsed([v] + more, rest))
  {
    Cons(Comma, tail);
  }

  lemma LastField(key: string, body: seq<Token>, seen: map<string, Json>, v: Json, rest: seq<Token>)
    requires key !in seen && ParseValue(body) == Some(Parsed(v, [CloseObject] + rest))
    ensures ParseFields([Word(Str(key))] + ([Colon] + body), seen) == Some(Parsed(seen[key := v], rest))
  {
    assert ([Word(Str(key))] + ([Colon] + body))[2..] == body;
    Cons(CloseObject, rest);
  }

  lemma NextField(key: string, body: seq<Token>, seen: map<string, Json>, v: Json, tail: seq<Token>)
    requires key !in seen && ParseValue(body) == Some(Parsed(v, [Comma] + tail))
    ensures ParseFields([Word(Str(key))] + ([Colon] + body), seen) == ParseFields(tail, seen[key := v])
  {
    assert ([Word(Str(key))] + ([Colon] + body))[2..] == body;
    Cons(Comma, tail);
  }

  lemma StartsValue(v: Json, rest: seq<Token>)
    ensures Write(v, rest) != [] && !Write(v, rest)[0].CloseArray?
  {
  }

  /** Parsing what was written gives the value, and leaves exactly what followed it. */
  lemma {:induction false} ParseWritten(v: Json, rest: seq<Token>)
    ensures ParseValue(Write(v, rest)) == Some(Parsed(v, rest))
    decreases v, 1, 0
  {
    match v
    case Arr(items) =>
      if items == [] {
        ParseEmpty(rest);
      } else {
        ParseWrittenItems(v, items, rest);
        ItemsStart(v, items, rest);
        ParseArray(WriteItems(v, items, rest), items, rest);
      }
    case Obj(fields) => ParseWrittenObject(v, rest);
    case _ => Cons(Word(v), rest);
  }

  lemma ItemsStart(whole: Json, items: seq<Json>, rest: seq<Token>)
    requires items != [] && forall i :: 0 <= i < |items| ==> items[i] < whole
    ensures WriteItems(whole, items, rest) != [] && !WriteItems(whole, items, rest)[0].CloseArray?
  {
    StartsValue(items[0], if |items| == 1 then [CloseArray] + rest else [Comma] + WriteItems(whole, items[1..], rest));
  }

  lemma {:induction false} ParseWrittenItems(whole: Json, items: seq<Json>, rest: seq<Token>)
    requires items != [] && forall i :: 0 <= i < |items| ==> items[i] < whole
    ensures ParseItems(WriteItems(whole, items, rest)) == Some(Parsed(items, rest))
    decreases whole, 0, |items|
  {
    var ts := WriteItems(whole, items, rest);
    if |items| == 1 {
      ParseWritten(items[0], [CloseArray] + rest);
      LastItem(ts, items[0], rest);
      assert items == [items[0]];
    } else {
      var tail := WriteItems(whole, items[1..], rest);
      ParseWritten(items[0], [Comma] + tail);
      ParseWrittenItems(whole, items[1..], rest);
      NextItem(ts, items[0], tail, items[1..], rest);
      assert items == [items[0]] + items[1..];
    }
  }

  /** The fields whose keys are listed. */
  ghost function Restricted(fields: map<string, Json>, keys: seq<string>): map<string, Json> {
    map k | k in fields && k in keys :: fields[k]
  }

  lemma RestrictedSnoc(fields: map<string, Json>, keys: seq<string>, done: nat)
    requires done < |keys| && keys[done] in fields && forall i, j :: 0 <= i < j < |keys| ==> keys[i] != keys[j]
    ensures keys[done] !in Restricted(fields, keys[..done])
    ensures Restricted(fields, keys[..done + 1]) == Restricted(fields, keys[..done])[keys[done] := fields[keys[done]]]
  {
    assert keys[..done + 1] == keys[..done] + [keys[done]];
  }

  lemma RestrictedEnds(fields: map<string, Json>)
    ensures Restricted(fields, []) == map[] && Restricted(fields, SortedKeys(fields.Keys)) == fields
  {
  }

  lemma NoKeys(fields: map<string, Json>)
    requires SortedKeys(fields.Keys) == []
    ensures fields == map[]
  {
    assert |fields.Keys| == 0;
  }

  /** The fields of an object, read from after the opening brace. */
  ghost predicate FieldsRead(v: Json, rest: seq<Token>)
    requires v.Obj?
  {
    var keys := SortedKeys(v.fields.Keys);
    && (forall i :: 0 <= i < |keys| ==> keys[i] in v.fields && v.fields[keys[i]] < v)
    && ParseFields(WriteFields(v, v.fields, keys[0..], rest), Restricted(v.fields, keys[..0])) ==
        Some(Parsed(Restricted(v.fields, keys), rest))
  }

  lemma {:induction false} ObjectFromFields(v: Json, rest: seq<Token>)
    requires v.Obj? && FieldsRead(v, rest) && SortedKeys(v.fields.Keys) != []
    ensures ParseValue(Write(v, rest)) == Some(Parsed(v, rest))
  {
    var keys := SortedKeys(v.fields.Keys);
    assert keys[0..] == keys && keys[..0] == [];
    RestrictedEnds(v.fields);
    var ts := WriteFields(v, v.fields, keys, rest);
    assert ts[0] == Word(Str(keys[0]));
    ParseObject(ts, v.fields, rest);
    assert Write(v, rest) == [OpenObject] + ts;
  }

  lemma FieldsInside(v: Json)
    requires v.Obj?
    ensures forall k :: k in v.fields ==> v.fields[k] < v
  {
  }

  lemma ParseEmptyObject(v: Json, rest: seq<Token>)
    requires v.Obj? && SortedKeys(v.fields.Keys) == []
    ensures ParseValue(Write(v, rest)) == Some(Parsed(v, rest))
  {
    NoKeys(v.fields);
    ParseEmpty(rest);
    assert WriteFields(v, v.fields, [], rest) == [CloseObject] + rest;
  }

  lemma {:induction false} ReadFields(v: Json, rest: seq<Token>)
    requires v.Obj? && SortedKeys(v.fields.Keys) != []
    ensures FieldsRead(v, rest)
    decreases v, 0, |SortedKeys(v.fields.Keys)| + 1
  {
    FieldsInside(v);
    ParseWrittenFields(v, v.fields, SortedKeys(v.fields.Keys), 0, rest);
  }

  lemma {:induction false} ParseWrittenObject(v: Json, rest: seq<Token>)
    requires v.Obj?
    ensures ParseValue(Write(v, rest)) == Some(Parsed(v, rest))
    decreases v, 0, |SortedKeys(v.fields.Keys)| + 2
  {
    if SortedKeys(v.fields.Keys) == [] {
      ParseEmptyObject(v, rest);
    } else {
      ReadFields(v, rest);
      ObjectFromFields(v, rest);
    }
  }

  lemma {:induction false} ParseWrittenFields(whole: Json, fields: map<string, Json>, keys: seq<string>, done: nat,
      rest: seq<Token>)
    requires done < |keys| && forall i :: 0 <= i < |keys| ==> keys[i] in fields && fields[keys[i]] < whole
    requires forall i, j :: 0 <= i < j < |keys| ==> keys[i] != keys[j]
    ensures ParseFields(WriteFields(whole, fields, keys[done..], rest), Restricted(fields, keys[..done]))
         == Some(Parsed(Restricted(fields, keys), rest))
    decreases whole, 0, |keys| - done
  {
    var left, k := keys[done..], keys[done];
    var v := fields[k];
    var seen := Restricted(fields, keys[..done]);
    RestrictedSnoc(fields, keys, done);
    if |left| == 1 {
      ParseWritten(v, [CloseObject] + rest);
      LastField(k, Write(v, [CloseObject] + rest), seen, v, rest);
      assert keys[..done + 1] == keys;
    } else {
      assert left[1..] == keys[done + 1..];
      var tail := WriteFields(whole, fields, keys[done + 1..], rest);
      ParseWritten(v, [Comma] + tail);
      NextField(k, Write(v, [Comma] + tail), seen, v, tail);
      ParseWrittenFields(whole, fields, keys, done + 1, rest);
    }
  }

  /** Decoding what was encoded gives the value back. */
  lemma {:induction false} JsonRoundTrip(v: Json)
    ensures Decode(Encode(v)) == Some(v)
  {
    ParseWritten(v, []);
  }

  /** Different values have different canonical texts. */
  lemma {:induction false} EncodeInjective(a: Json, b: Json)
    ensures Encode(a) == Encode(b) <==> a == b
  {
    JsonRoundTrip(a);
    JsonRoundTrip(b);
  }
}
