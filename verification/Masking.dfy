/**
 Full masking of phone numbers, social security and card numbers and account numbers, and of
 the listed columns of a row.  The first three show at most the last four digits and masking
 them again changes nothing; short account numbers are the exception.
 */
module Masking {
  import opened Wrappers

  datatype Kind = Phone | Ssn | Card | Account | Opaque
  datatype Level = Raw | Full

  predicate IsDigit(c: char) {
    '0' <= c <= '9'
  }

  function Digits(s: string): string {
    if s == "" then "" else (if IsDigit(s[0]) then [s[0]] else "") + Digits(s[1..])
  }

  /** Every digit replaced by a star. */
  function Starred(s: string): string {
    seq(|s|, i requires 0 <= i < |s| => if IsDigit(s[i]) then '*' else s[i])
  }

  /** The last `n` characters, or all of them if there are fewer. */
  function Last(s: string, n: nat): string {
    if |s| <= n then s else s[|s| - n..]
  }

  // ----- the maskers -----

  function MaskPhone(v: string): string {
    var digits := Digits(v);
    if |digits| >= 4 then (if |v| > 4 then Starred(v[..|v| - 4]) else "***-***-") + Last(digits, 4)
    else "***-***-" + digits
  }

  function MaskTail(prefix: string, v: string): string {
    prefix + Last(Digits(v), 4)
  }

  function MaskAccount(v: string): string {
    "***" + Last(v, 4)
  }

  function MaskText(kind: Kind, v: string): string {
    match kind
    case Phone => MaskPhone(v)
    case Ssn => MaskTail("***-**-", v)
    case Card => MaskTail("****-****-****-", v)
    case Account => MaskAccount(v)
    case Opaque => "********"
  }

  /** Missing and empty values stay as they are, and so does everything at the raw level. */
  function MaskValue(v: Option<string>, kind: Kind, level: Level): Option<string> {
    if v.None? || level.Raw? || v.value == "" then v else Some(MaskText(kind, v.value))
  }

  // ----- digits -----

  lemma {:induction false} DigitsConcat(a: string, b: string)
    ensures Digits(a + b) == Digits(a) + Digits(b)
  {
    if a == "" {
      assert a + b == b;
    } else {
      var head := if IsDigit(a[0]) then [a[0]] else "";
      DigitsConcat(a[1..], b);
      assert (a + b)[1..] == a[1..] + b;
      assert Digits(a + b) == head + (Digits(a[1..]) + Digits(b)) == head + Digits(a[1..]) + Digits(b);
    }
  }

  lemma {:induction false} AllDigits(s: string)
    requires forall c | c in s :: IsDigit(c)
    ensures Digits(s) == s
  {
    if s != "" {
      assert s[0] in s && forall c | c in s[1..] :: c in s;
      AllDigits(s[1..]);
    }
  }

  lemma {:induction false} NoDigits(s: string)
    requires forall c | c in s :: !IsDigit(c)
    ensures Digits(s) == ""
  {
    if s != "" {
      assert s[0] in s && forall c | c in s[1..] :: c in s;
      NoDigits(s[1..]);
    }
  }

  lemma {:induction false} DigitsAreDigits(s: string)
    ensures forall c | c in Digits(s) :: IsDigit(c)
    ensures |Digits(s)| <= |s|
  {
    if s != "" { DigitsAreDigits(s[1..]); }
  }

  /** The digits of a masked text: those it was given to end with. */
  lemma {:induction false} DigitsShown(prefix: string, v: string, n: nat)
    requires forall c | c in prefix :: !IsDigit(c)
    ensures Digits(prefix + Last(Digits(v), n)) == Last(Digits(v), n)
  {
    var tail := Last(Digits(v), n);
    DigitsAreDigits(v);
    assert forall c | c in tail :: c in Digits(v);
    DigitsConcat(prefix, tail);
    NoDigits(prefix);
    AllDigits(tail);
  }

  predicate Numeric(kind: Kind) {
    kind in {Phone, Ssn, Card}
  }

  function PhonePrefix(v: string): string {
    if |Digits(v)| >= 4 && |v| > 4 then Starred(v[..|v| - 4]) else "***-***-"
  }

  function Prefix(kind: Kind, v: string): string
    requires Numeric(kind)
  {
    match kind case Phone => PhonePrefix(v) case Ssn => "***-**-" case Card => "****-****-****-"
  }

  lemma {:induction false} StarsOnly(kind: Kind, v: string)
    requires Numeric(kind)
    ensures forall c | c in Prefix(kind, v) :: !IsDigit(c)
    ensures MaskText(kind, v) == Prefix(kind, v) + Last(Digits(v), 4)
  {
  }

  /** A masked number shows at most four digits, and they are the last ones. */
  lemma {:induction false} ShowsLastFour(kind: Kind, v: string)
    requires Numeric(kind)
    ensures Digits(MaskText(kind, v)) == Last(Digits(v), 4)
    ensures |Digits(MaskText(kind, v))| <= 4
    ensures Digits(MaskText(kind, v)) == Digits(v)[|Digits(v)| - |Digits(MaskText(kind, v))|..]
  {
    var shown := Digits(MaskText(kind, v));
    StarsOnly(kind, v);
    DigitsShown(Prefix(kind, v), v, 4);
    assert shown == Last(Digits(v), 4);
    LastIsSuffix(Digits(v), 4);
  }

  lemma {:induction false} LastIsSuffix(s: string, n: nat)
    ensures |Last(s, n)| <= n && |Last(s, n)| <= |s| && Last(s, n) == s[|s| - |Last(s, n)|..]
  {
  }

  /**
   A value masked in full tells its last four digits, if it is a number, its last four characters, if it
   is an account, and otherwise nothing.  Missing and empty values, and those at the raw level, come through.
   */
  lemma {:induction false} MaskedValueTells(v: Option<string>, kind: Kind, level: Level)
    ensures var m := MaskValue(v, kind, level);
            if v == None || v == Some("") || level == Raw then m == v
            else m.Some? && match kind
                            case Opaque => m.value == "********"
                            case Account => m.value == "***" + v.value[if |v.value| > 4 then |v.value| - 4 else 0..]
                            case _ => Digits(m.value) == Last(Digits(v.value), 4)
  {
    if v.Some? && Numeric(kind) { ShowsLastFour(kind, v.value); }
    if v.Some? { LastIsSuffix(v.value, 4); }
  }

  lemma {:induction false} TailTwice(prefix: string, v: string)
    requires forall c | c in prefix :: !IsDigit(c)
    ensures MaskTail(prefix, MaskTail(prefix, v)) == MaskTail(prefix, v)
  {
    DigitsShown(prefix, v, 4);
    assert Last(Last(Digits(v), 4), 4) == Last(Digits(v), 4);
  }

  lemma {:induction false} StarredKept(s: string)
    requires forall c | c in s :: !IsDigit(c)
    ensures Starred(s) == s
  {
    assert forall i | 0 <= i < |s| :: s[i] in s;
  }

  /** A text with four digits at its end and none before is masked to itself. */
  lemma {:induction false} PhoneMasked(prefix: string, last: string)
    requires (forall c | c in prefix :: !IsDigit(c)) && |prefix| > 0 && |last| == 4 && Digits(prefix + last) == last
    ensures MaskPhone(prefix + last) == prefix + last
  {
    var m := prefix + last;
    assert m[..|m| - 4] == prefix;
    StarredKept(prefix);
  }

  lemma {:induction false} PhoneTwice(v: string)
    ensures MaskPhone(MaskPhone(v)) == MaskPhone(v)
  {
    DigitsAreDigits(v);
    StarsOnly(Phone, v);
    DigitsShown(PhonePrefix(v), v, 4);
    if |Digits(v)| >= 4 {
      assert |v| > 4 ==> |Starred(v[..|v| - 4])| > 0;
      PhoneMasked(PhonePrefix(v), Last(Digits(v), 4));
    } else {
      assert MaskPhone(v) == "***-***-" + Digits(v);
    }
  }

  lemma {:induction false} MaskNumberTwice(kind: Kind, v: string)
    requires Numeric(kind)
    ensures MaskText(kind, MaskText(kind, v)) == MaskText(kind, v)
  {
    match kind {
      case Phone => PhoneTwice(v);
      case Ssn => TailTwice("***-**-", v);
      case Card => TailTwice("****-****-****-", v);
    }
  }

  /** Masking again changes nothing, except an account number of one to three characters. */
  lemma {:induction false} MaskTwiceExact(v: Option<string>, kind: Kind, level: Level)
    ensures MaskValue(MaskValue(v, kind, level), kind, level) == MaskValue(v, kind, level) <==> Settles(v, kind, level)
  {
    if v.Some? && level.Full? && v.value != "" {
      if Numeric(kind) {
        MaskNumberTwice(kind, v.value);
      } else if kind == Account {
        AccountTwice(v.value);
      }
    }
  }

  predicate Settles(v: Option<string>, kind: Kind, level: Level) {
    kind == Account && level.Full? && v.Some? ==> |v.value| == 0 || |v.value| >= 4
  }

  lemma {:induction false} AccountTwice(v: string)
    requires v != ""
    ensures MaskAccount(MaskAccount(v)) == MaskAccount(v) <==> |v| >= 4
  {
    assert |MaskAccount(v)| == 3 + if |v| >= 4 then 4 else |v|;
    if |v| >= 4 { assert Last(MaskAccount(v), 4) == Last(v, 4); }
  }

  // ----- rows -----

  type Row = map<string, Option<string>>

  function KindOf(kinds: map<string, Kind>, col: string): Kind {
    if col in kinds then kinds[col] else Opaque
  }

  function MaskColumns(row: Row, cols: seq<string>, kinds: map<string, Kind>, level: Level): Row {
    if cols == [] then row
    else
      var before, col := MaskColumns(row, cols[..|cols| - 1], kinds, level), cols[|cols| - 1];
      if col in before then before[col := MaskValue(before[col], KindOf(kinds, col), level)] else before
  }

  /** One masking for each listed column, however often it is listed. */
  function MaskEach(row: Row, cols: seq<string>, kinds: map<string, Kind>, level: Level): Row {
    map col | col in row :: if col in cols then MaskValue(row[col], KindOf(kinds, col), level) else row[col]
  }

  method MaskRow(row: Row, cols: seq<string>, kinds: map<string, Kind>, level: Level) returns (result: Row)
    ensures result == MaskColumns(row, cols, kinds, level)
    ensures result.Keys == row.Keys && forall col | col in row && col !in cols :: result[col] == row[col]
  {
    result := row;
    for i := 0 to |cols|
      invariant result == MaskColumns(row, cols[..i], kinds, level)
      invariant result.Keys == row.Keys && forall col | col in row && col !in cols :: result[col] == row[col]
    {
      assert cols[..i + 1][..i] == cols[..i];
      if cols[i] in result { result := result[cols[i] := MaskValue(result[cols[i]], KindOf(kinds, cols[i]), level)]; }
    }
    assert cols[..|cols|] == cols;
  }

  /** Listed at least twice. */
  predicate Repeated(cols: seq<string>, col: string) {
    exists i, j :: 0 <= i < j < |cols| && cols[i] == cols[j] == col
  }

  predicate RepeatsSettle(row: Row, cols: seq<string>, kinds: map<string, Kind>, level: Level) {
    forall col | col in row && Repeated(cols, col) :: Settles(row[col], KindOf(kinds, col), level)
  }

  lemma {:induction false} MaskColumnsAt(row: Row, cols: seq<string>, kinds: map<string, Kind>, level: Level,
                                         col: string)
    ensures MaskColumns(row, cols, kinds, level).Keys == row.Keys
    ensures col in row ==>
              var got, once := MaskColumns(row, cols, kinds, level)[col],
                MaskValue(row[col], KindOf(kinds, col), level);
              && (col !in cols ==> got == row[col])
              && (col in cols && (Repeated(cols, col) ==> Settles(row[col], KindOf(kinds, col), level)) ==> got == once)
              && (Repeated(cols, col) && !Settles(row[col], KindOf(kinds, col), level)
                ==> got.Some? && |got.value| == 7)
  {
    if cols != [] {
      var k := |cols| - 1;
      var before, last := cols[..k], cols[k];
      MaskColumnsAt(row, before, kinds, level, col);
      assert cols == before + [last];
      assert Repeated(cols, col)
        <==> Repeated(before, col) || (last == col && col in before) by { RepeatedLast(before, last, col); }
      if col in row && last == col {
        MaskTwiceExact(row[col], KindOf(kinds, col), level);
        assert col in before ==> Repeated(cols, col);
      }
    }
  }

  lemma {:induction false} RepeatedLast(before: seq<string>, last: string, col: string)
    ensures Repeated(before + [last], col) <==> Repeated(before, col) || (last == col && col in before)
  {
    var cols := before + [last];
    if i, j :| 0 <= i < j < |cols| && cols[i] == cols[j] == col {
      if j < |before| { assert before[i] == before[j] == col; } else { assert before[i] == col; }
    }
    if i, j :| 0 <= i < j < |before| && before[i] == before[j] == col { assert cols[i] == cols[j] == col; }
    if last == col && col in before {
      var i :| 0 <= i < |before| && before[i] == col;
      assert cols[i] == cols[|before|] == col;
    }
  }

  /**
   Listing columns repeatedly masks as listing each once, exactly when no short account number is listed repeatedly.
   */
  lemma {:induction false} RepeatsExact(row: Row, cols: seq<string>, kinds: map<string, Kind>, level: Level)
    ensures MaskColumns(row, cols, kinds, level) == MaskEach(row, cols, kinds, level)
            <==> RepeatsSettle(row, cols, kinds, level)
  {
    var got, once := MaskColumns(row, cols, kinds, level), MaskEach(row, cols, kinds, level);
    forall col
      ensures got.Keys == row.Keys
      ensures col in row ==> (got[col] == once[col]
              <==> (Repeated(cols, col) ==> Settles(row[col], KindOf(kinds, col), level)))
    {
      MaskColumnsAt(row, cols, kinds, level, col);
      if col in row && Repeated(cols, col) && !Settles(row[col], KindOf(kinds, col), level) {
        assert once[col] == Some(MaskAccount(row[col].value)) && |MaskAccount(row[col].value)| < 7;
      }
    }
    if RepeatsSettle(row, cols, kinds, level) { assert got == once; }
  }
}
