/**
 * The first half of the note metadata constructor: the walk along the
 * configured field list that cuts a metadata string into named fields.
 *
 * Each field is read as a slice of the string at the current cursor; the
 * slice's length is either a literal or the hexadecimal value of a field
 * read earlier; the cursor then advances by exactly that length.
 */
module MetadataFields {
  import opened Wrappers

  /** How long a field is: a literal number of characters, or the name of an
      earlier field whose hexadecimal value gives the number. */
  datatype FieldLength = Literal(n: nat) | LengthOf(field: string)

  /** One entry of the ordered field list. */
  datatype Field = Field(name: string, length: FieldLength)

  /** The two fields that are later chunked into lists; they are stored
      without the `0x` prefix that every other field gets. */
  predicate IsArrayField(name: string)
  {
    name == "addresses" || name == "viewingKeys"
  }

  function Min(a: int, b: int): int
  {
    if a <= b then a else b
  }

  /** What a field's slice is stored as: array fields verbatim, every other
      field with a `0x` prefix. */
  function Stored(name: string, payload: string): (v: string)
    ensures IsArrayField(name) ==> v == payload
    ensures !IsArrayField(name) ==> |v| == |payload| + 2 && v[..2] == "0x" && v[2..] == payload
  {
    if IsArrayField(name) then payload else "0x" + payload
  }

  /** `String.prototype.substr(start, len)` for non-negative arguments: the
      slice is clipped at the end of the string and never fails. */
  function Substr(s: string, start: nat, len: nat): (r: string)
    ensures |r| <= len
    ensures start + len <= |s| ==> r == s[start..start + len]
  {
    s[Min(start, |s|)..Min(start + len, |s|)]
  }

  /** Where reading starts: just after a leading `0x`, otherwise at 0. */
  function StartOffset(s: string): (k: nat)
    ensures k <= |s|
    ensures k == 2 <==> |s| >= 2 && s[..2] == "0x"
    ensures k == 0 <==> !(|s| >= 2 && s[..2] == "0x")
  {
    if |s| >= 2 && s[..2] == "0x" then 2 else 0
  }

  // ---------------------------------------------------------------------
  // parseInt(v, 16)
  // ---------------------------------------------------------------------

  predicate IsHexDigit(c: char)
  {
    ('0' <= c <= '9') || ('a' <= c <= 'f') || ('A' <= c <= 'F')
  }

  predicate AllHex(d: string)
  {
    forall i :: 0 <= i < |d| ==> IsHexDigit(d[i])
  }

  function DigitValue(c: char): (v: nat)
    requires IsHexDigit(c)
    ensures v < 16
  {
    if '0' <= c <= '9' then c as int - '0' as int
    else if 'a' <= c <= 'f' then c as int - 'a' as int + 10
    else c as int - 'A' as int + 10
  }

  /** The number of leading hexadecimal digits of `s`. */
  function HexPrefix(s: string): (k: nat)
    ensures k <= |s|
  {
    if s == [] || !IsHexDigit(s[0]) then 0 else 1 + HexPrefix(s[1..])
  }

  /** `HexPrefix` counts the whole leading run of hexadecimal digits: all
      of them, and up to the first character that is not one. */
  lemma {:induction false} HexPrefixIsLongestRun(s: string)
    ensures AllHex(s[..HexPrefix(s)])
    ensures HexPrefix(s) < |s| ==> !IsHexDigit(s[HexPrefix(s)])
  {
    if s != [] && IsHexDigit(s[0]) {
      HexPrefixIsLongestRun(s[1..]);
      var k := HexPrefix(s);
      assert s[..k] == [s[0]] + s[1..][..k - 1];
    }
  }

  /** The value of a string of hexadecimal digits, most significant first. */
  function HexValue(d: string): nat
    requires AllHex(d)
  {
    if d == [] then 0 else 16 * HexValue(d[..|d| - 1]) + DigitValue(d[|d| - 1])
  }

  /** parseInt drops one leading `0x` or `0X` when the radix is 16. */
  function DropRadixPrefix(v: string): string
  {
    if |v| >= 2 && v[0] == '0' && (v[1] == 'x' || v[1] == 'X') then v[2..] else v
  }

  /** `parseInt(v, 16)`: the value of the longest run of hexadecimal digits
      after an optional `0x`, or `None` (JavaScript's NaN) when there is no
      such digit. */
  function ParseHex(v: string): Option<nat>
  {
    var body := DropRadixPrefix(v);
    var k := HexPrefix(body);
    if k == 0 then None
    else
      HexPrefixIsLongestRun(body);
      Some(HexValue(body[..k]))
  }

  /** `parseInt(v, 16)` is a number exactly when, after the optional `0x`,
      the string starts with a hexadecimal digit. */
  lemma ParseHexDefined(v: string)
    ensures ParseHex(v).Some? <==> |DropRadixPrefix(v)| > 0 && IsHexDigit(DropRadixPrefix(v)[0])
  {
  }

  /** A field that holds plain hexadecimal digits gives, as a length, the
      value of those digits, whether it was stored with `0x` or without. */
  lemma StoredLengthIsHexValue(name: string, digits: string)
    requires |digits| > 0 && AllHex(digits)
    ensures ParseHex(Stored(name, digits)) == Some(HexValue(digits))
  {
    var v := Stored(name, digits);
    var body := DropRadixPrefix(v);
    assert body == digits by {
      if !IsArrayField(name) {
        assert v == "0x" + digits;
        assert v[2..] == digits;
      } else {
        assert v == digits;
        if |v| >= 2 {
          assert IsHexDigit(v[1]);
        }
      }
    }
    var k := HexPrefix(body);
    HexPrefixIsLongestRun(body);
    assert k == |digits|;
    assert body[..k] == digits;
  }

  // ---------------------------------------------------------------------
  // The field walk
  // ---------------------------------------------------------------------

  /** The state of the walk after some fields: the fields read so far (the
      `metadata` object), the cursor, and, for the proofs, the length and
      the slice of every field read. */
  datatype Cursor = Cursor(values: map<string, string>, start: nat, lengths: seq<nat>, payloads: seq<string>)

  /** The length a field asks for, given the fields read so far; `None` when
      the named field is missing or does not start with a hexadecimal digit
      (the source then computes NaN). */
  function ResolveLength(length: FieldLength, values: map<string, string>): (r: Option<nat>)
    ensures length.Literal? ==> r == Some(length.n)
    ensures length.LengthOf? && r.Some? ==> length.field in values && r == ParseHex(values[length.field])
  {
    match length
    case Literal(n) => Some(n)
    case LengthOf(f) => if f in values then ParseHex(values[f]) else None
  }

  /** Reads one field at the cursor. */
  function ReadField(c: Cursor, f: Field, s: string): (r: Option<Cursor>)
    ensures r.Some? <==> ResolveLength(f.length, c.values).Some?
    ensures r.Some? ==> r.value.start >= c.start
  {
    match ResolveLength(f.length, c.values)
    case None => None
    case Some(len) =>
      var p := Substr(s, c.start, len);
      Some(Cursor(c.values[f.name := Stored(f.name, p)], c.start + len, c.lengths + [len], c.payloads + [p]))
  }

  /** The walk over the whole field list, in order; `None` when some length
      does not resolve. */
  function Walk(config: seq<Field>, s: string): (r: Option<Cursor>)
    ensures r.Some? ==> r.value.start >= StartOffset(s)
    decreases |config|
  {
    if config == [] then Some(Cursor(map[], StartOffset(s), [], []))
    else
      match Walk(config[..|config| - 1], s)
      case None => None
      case Some(c) => ReadField(c, config[|config| - 1], s)
  }

  function Sum(xs: seq<nat>): nat
  {
    if xs == [] then 0 else Sum(xs[..|xs| - 1]) + xs[|xs| - 1]
  }

  function Concat(ps: seq<string>): string
  {
    if ps == [] then [] else Concat(ps[..|ps| - 1]) + ps[|ps| - 1]
  }

  /** Every prefix of a field list that walks also walks, to the same
      lengths and slices. */
  lemma {:induction false} WalkPrefix(config: seq<Field>, s: string, i: nat)
    requires Walk(config, s).Some? && i <= |config|
    ensures Walk(config[..i], s).Some?
    ensures |Walk(config, s).value.lengths| == |config| == |Walk(config, s).value.payloads|
    ensures Walk(config[..i], s).value.lengths == Walk(config, s).value.lengths[..i]
    ensures Walk(config[..i], s).value.payloads == Walk(config, s).value.payloads[..i]
    decreases |config| - i
  {
    WalkCounts(config, s);
    if i == |config| {
      assert config[..i] == config;
    } else {
      WalkPrefix(config, s, i + 1);
      var pre := config[..i + 1];
      assert pre[..|pre| - 1] == config[..i];
      var c := Walk(config, s).value;
      assert c.lengths[..i + 1][..i] == c.lengths[..i];
      assert c.payloads[..i + 1][..i] == c.payloads[..i];
    }
  }

  /** A walk records one length and one slice per field. */
  lemma {:induction false} WalkCounts(config: seq<Field>, s: string)
    requires Walk(config, s).Some?
    ensures |Walk(config, s).value.lengths| == |config| == |Walk(config, s).value.payloads|
    decreases |config|
  {
    if config != [] {
      WalkCounts(config[..|config| - 1], s);
    }
  }

  /** One step of the walk, spelled out. */
  lemma ReadFieldShape(c: Cursor, f: Field, s: string)
    requires ReadField(c, f, s).Some?
    ensures var r := ReadField(c, f, s).value; var len := ResolveLength(f.length, c.values).value;
      && r.start == c.start + len
      && r.lengths == c.lengths + [len]
      && r.payloads == c.payloads + [Substr(s, c.start, len)]
      && r.values == c.values[f.name := Stored(f.name, Substr(s, c.start, len))]
  {
  }

  /** The last step of a walk over a non-empty field list. */
  lemma WalkLast(config: seq<Field>, s: string)
    requires config != [] && Walk(config, s).Some?
    ensures Walk(config[..|config| - 1], s).Some?
    ensures Walk(config, s) == ReadField(Walk(config[..|config| - 1], s).value, config[|config| - 1], s)
  {
  }

  /** The cursor advances by exactly each field's length: after the walk it
      stands at the start offset plus the sum of all the lengths. */
  lemma {:induction false} WalkCursor(config: seq<Field>, s: string)
    requires Walk(config, s).Some?
    ensures Walk(config, s).value.start == StartOffset(s) + Sum(Walk(config, s).value.lengths)
    decreases |config|
  {
    if config != [] {
      var pre := config[..|config| - 1];
      WalkLast(config, s);
      WalkCursor(pre, s);
      var b := Walk(pre, s).value;
      var c := Walk(config, s).value;
      ReadFieldShape(b, config[|config| - 1], s);
      assert c.lengths[..|c.lengths| - 1] == b.lengths;
    }
  }

  /** The fields are consecutive, non-overlapping slices: field i is the
      slice that starts at the start offset plus the lengths of the fields
      before it and is (at most) as long as field i's own length. */
  lemma {:induction false} WalkSliceAt(config: seq<Field>, s: string, i: nat)
    requires Walk(config, s).Some? && i < |config|
    ensures |Walk(config, s).value.lengths| == |config| == |Walk(config, s).value.payloads|
    ensures var c := Walk(config, s).value;
      c.payloads[i] == Substr(s, StartOffset(s) + Sum(c.lengths[..i]), c.lengths[i])
  {
    WalkCounts(config, s);
    var c := Walk(config, s).value;
    assert Walk(config[..i], s).Some? by { WalkPrefix(config, s, i); }
    var b := Walk(config[..i], s).value;
    assert b.lengths == c.lengths[..i] by { WalkPrefix(config, s, i); }
    assert b.start == StartOffset(s) + Sum(b.lengths) by { WalkCursor(config[..i], s); }
    WalkNextResolves(config, s, i, b);
    var len := ResolveLength(config[i].length, b.values).value;
    assert c.lengths[i] == len && c.payloads[i] == Substr(s, b.start, len) by {
      WalkStep(config, s, i, b, len);
      WalkPrefix(config, s, i + 1);
      var d := Walk(config[..i + 1], s).value;
      assert d.payloads[i] == c.payloads[i] && d.lengths[i] == c.lengths[i];
    }
  }

  /** Joining the slices of all fields, in order, gives back exactly the part
      of the input that the walk consumed. */
  lemma {:induction false} WalkCoversInput(config: seq<Field>, s: string)
    requires Walk(config, s).Some?
    ensures var c := Walk(config, s).value;
      Concat(c.payloads) == s[Min(StartOffset(s), |s|)..Min(c.start, |s|)]
    decreases |config|
  {
    if config != [] {
      var pre := config[..|config| - 1];
      WalkLast(config, s);
      WalkCoversInput(pre, s);
      var b := Walk(pre, s).value;
      var c := Walk(config, s).value;
      ReadFieldShape(b, config[|config| - 1], s);
      ConcatOneMore(b.payloads, s, Min(StartOffset(s), |s|), b.start, c.start - b.start);
      assert c.payloads[..|c.payloads| - 1] == b.payloads;
    }
  }

  /** Appending the next slice to slices that join to the input from `lo`
      up to `start` joins to the input up to `start + len`. */
  lemma ConcatOneMore(ps: seq<string>, s: string, lo: nat, start: nat, len: nat)
    requires lo <= Min(start, |s|)
    requires Concat(ps) == s[lo..Min(start, |s|)]
    ensures Concat(ps + [Substr(s, start, len)]) == s[lo..Min(start + len, |s|)]
  {
    var qs := ps + [Substr(s, start, len)];
    assert qs[..|qs| - 1] == ps;
    var mid, hi := Min(start, |s|), Min(start + len, |s|);
    assert s[lo..mid] + s[mid..hi] == s[lo..hi];
  }

  /** The names of a field list. */
  function Names(config: seq<Field>): set<string>
  {
    set i | 0 <= i < |config| :: config[i].name
  }

  lemma NamesOfLonger(config: seq<Field>)
    requires config != []
    ensures Names(config) == Names(config[..|config| - 1]) + {config[|config| - 1].name}
  {
    var pre := config[..|config| - 1];
    forall x | x in Names(config) ensures x in Names(pre) + {config[|config| - 1].name} {
      var i :| 0 <= i < |config| && config[i].name == x;
      if i < |pre| {
        assert pre[i].name == x;
      }
    }
    forall x | x in Names(pre) ensures x in Names(config) {
      var i :| 0 <= i < |pre| && pre[i].name == x;
      assert config[i].name == x;
    }
  }

  /** The walk stores exactly one entry per field name in the list. */
  lemma {:induction false} WalkKeys(config: seq<Field>, s: string)
    requires Walk(config, s).Some?
    ensures Walk(config, s).value.values.Keys == Names(config)
    decreases |config|
  {
    if config != [] {
      var pre, f := config[..|config| - 1], config[|config| - 1];
      assert Walk(pre, s).Some? && Walk(config, s) == ReadField(Walk(pre, s).value, f, s) by {
        WalkLast(config, s);
      }
      var b := Walk(pre, s).value;
      assert Walk(config, s).value.values.Keys == b.values.Keys + {f.name} by {
        ReadFieldShape(b, f, s);
      }
      assert b.values.Keys == Names(pre) by {
        WalkKeys(pre, s);
      }
      NamesOfLonger(config);
    }
  }

  /** The entry of a name is the slice of the last field with that name,
      with `0x` in front unless it is an array field. */
  lemma {:induction false} WalkStoredAt(config: seq<Field>, s: string, i: nat)
    requires Walk(config, s).Some? && i < |config|
    requires forall j :: i < j < |config| ==> config[j].name != config[i].name
    ensures |Walk(config, s).value.payloads| == |config|
    ensures var c := Walk(config, s).value;
      config[i].name in c.values && c.values[config[i].name] == Stored(config[i].name, c.payloads[i])
    decreases |config|
  {
    WalkCounts(config, s);
    var pre := config[..|config| - 1];
    var n := |pre|;
    WalkLast(config, s);
    var b := Walk(pre, s).value;
    ReadFieldShape(b, config[n], s);
    if i < n {
      assert config[n].name != config[i].name;
      forall j | i < j < |pre| ensures pre[j].name != pre[i].name {
        assert config[j].name != config[i].name;
      }
      WalkStoredAt(pre, s, i);
    }
  }

  /** The length of field i is its literal, or the hexadecimal value of a
      field read before it, as it stood when field i was reached. */
  lemma {:induction false} WalkLengths(config: seq<Field>, s: string, i: nat)
    requires Walk(config, s).Some? && i < |config|
    ensures Walk(config[..i], s).Some?
    ensures |Walk(config, s).value.lengths| == |config|
    ensures Some(Walk(config, s).value.lengths[i]) == ResolveLength(config[i].length, Walk(config[..i], s).value.values)
    ensures config[i].length.Literal? ==> Walk(config, s).value.lengths[i] == config[i].length.n
    ensures config[i].length.LengthOf? ==> exists j :: 0 <= j < i && config[j].name == config[i].length.field
  {
    WalkPrefix(config, s, i + 1);
    WalkPrefix(config, s, i);
    var pre := config[..i + 1];
    assert pre[..|pre| - 1] == config[..i];
    var c := Walk(config, s).value;
    assert c.lengths[..i + 1][i] == c.lengths[i];
    if config[i].length.LengthOf? {
      WalkKeys(config[..i], s);
      var f := config[i].length.field;
      assert f in Names(config[..i]);
      var j :| 0 <= j < i && config[..i][j].name == f;
      assert config[j].name == f;
    }
  }

  /** The next field of a list that walks has a length that resolves
      against the fields read before it. */
  lemma WalkNextResolves(config: seq<Field>, s: string, i: nat, c: Cursor)
    requires Walk(config, s).Some? && i < |config|
    requires Walk(config[..i], s) == Some(c)
    ensures ResolveLength(config[i].length, c.values).Some?
  {
    WalkPrefix(config, s, i + 1);
    var pre := config[..i + 1];
    assert pre[..|pre| - 1] == config[..i];
    assert pre[|pre| - 1] == config[i];
  }

  /** One more field, read from the cursor the shorter prefix stops at. */
  lemma WalkStep(config: seq<Field>, s: string, i: nat, c: Cursor, len: nat)
    requires i < |config|
    requires Walk(config[..i], s) == Some(c)
    requires ResolveLength(config[i].length, c.values) == Some(len)
    ensures Walk(config[..i + 1], s) ==
      Some(Cursor(c.values[config[i].name := Stored(config[i].name, Substr(s, c.start, len))],
                  c.start + len, c.lengths + [len], c.payloads + [Substr(s, c.start, len)]))
  {
    var pre := config[..i + 1];
    assert pre[..|pre| - 1] == config[..i];
    assert pre[|pre| - 1] == config[i];
  }

  /** The first loop of the constructor: walks the field list, filling the
      metadata map and advancing the cursor. */
  method ParseFields(config: seq<Field>, s: string) returns (values: map<string, string>, start: nat)
    requires Walk(config, s).Some?
    ensures values == Walk(config, s).value.values
    ensures start == Walk(config, s).value.start
  {
    values := map[];
    start := StartOffset(s);
    ghost var lengths: seq<nat> := [];
    ghost var payloads: seq<string> := [];
    assert config[..0] == [];
    for i := 0 to |config|
      invariant Walk(config[..i], s) == Some(Cursor(values, start, lengths, payloads))
    {
      WalkNextResolves(config, s, i, Cursor(values, start, lengths, payloads));
      var field := config[i];
      var len: nat;
      match field.length {
        case Literal(n) =>
          len := n;
        case LengthOf(f) =>
          len := ParseHex(values[f]).value;
      }
      WalkStep(config, s, i, Cursor(values, start, lengths, payloads), len);
      var payload := Substr(s, start, len);
      values := values[field.name := Stored(field.name, payload)];
      start := start + len;
      lengths := lengths + [len];
      payloads := payloads + [payload];
    }
    assert config[..|config|] == config;
  }
}
