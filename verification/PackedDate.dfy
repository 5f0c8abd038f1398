/** DATE columns: three bytes, year*512 + month*32 + day, taken apart by EXTRACT
    (merge_manager.cc, calculExtract) and compared as integers by the filter
    (filter.cc, typeLittle). */
module PackedDate {
  import opened Rows
  import opened BigEndian

  datatype Date = Date(year: nat, month: nat, day: nat)

  ghost predicate Valid(d: Date) { d.year < 0x8000 && d.month < 16 && d.day < 32 }

  function Pack(d: Date): nat { d.year * 512 + d.month * 32 + d.day }

  /** The column's bytes, least significant first. */
  function Bytes(n: nat): (r: Row)
    requires n < 0x100_0000
    ensures |r| == 3
  {
    [n % 256, n / 256 % 256, n / 65536]
  }

  datatype Unit = YEAR | MONTH | DAY

  /** An int read from the column's bytes and a zero byte. */
  method ReadInt(column: Row) returns (value: nat)
    requires |column| == 3
    ensures value == Little(column)
  {
    var buffer: seq<int> := [];
    for k := 0 to 3
      invariant |buffer| == k && forall i :: 0 <= i < k ==> buffer[i] == column[i]
    {
      buffer := buffer + [column[k]];
    }
    buffer := buffer + [0];
    value := buffer[0] + 256 * buffer[1] + 65536 * buffer[2] + 16777216 * buffer[3];
  }

  function Little(column: Row): nat
    requires |column| == 3
  {
    column[0] as int + 256 * column[1] as int + 65536 * column[2] as int
  }

  method CalculExtract(unit: Unit, column: Row) returns (result: nat)
    requires |column| == 3
    ensures result == Extract(unit, Little(column))
  {
    var value := ReadInt(column);
    match unit {
      case YEAR => result := value / 512;
      case MONTH =>
        value := value % 512;
        result := value / 32;
      case DAY =>
        value := value % 512;
        value := value % 32;
        result := value;
    }
  }

  function Extract(unit: Unit, value: nat): nat {
    match unit
    case YEAR => value / 512
    case MONTH => value % 512 / 32
    case DAY => value % 512 % 32
  }

  lemma {:induction false} LittleOfBytes(n: nat)
    requires n < 0x100_0000
    ensures Little(Bytes(n)) == n
  {
  }

  /** EXTRACT takes a packed date apart into exactly the date that was packed. */
  lemma {:induction false} ExtractInvertsPack(d: Date)
    requires Valid(d)
    ensures Pack(d) < 0x100_0000
    ensures var v := Little(Bytes(Pack(d)));
            Date(Extract(YEAR, v), Extract(MONTH, v), Extract(DAY, v)) == d
  {
    LittleOfBytes(Pack(d));
    assert Pack(d) / 512 == d.year && Pack(d) % 512 == d.month * 32 + d.day;
  }

  /** And every three bytes are a packed date. */
  lemma {:induction false} PackInvertsExtract(column: Row)
    requires |column| == 3
    ensures var v := Little(column);
            var d := Date(Extract(YEAR, v), Extract(MONTH, v), Extract(DAY, v));
            Valid(d) && Pack(d) == v
  {
  }

  predicate Before(a: Date, b: Date) {
    a.year < b.year || (a.year == b.year && (a.month < b.month || (a.month == b.month && a.day < b.day)))
  }

  /** The filter's integer comparison of two date columns is the calendar's. */
  lemma {:induction false} ComparisonIsCalendar(a: Date, b: Date)
    requires Valid(a) && Valid(b)
    ensures Pack(a) < 0x100_0000 && Pack(b) < 0x100_0000
    ensures Little(Bytes(Pack(a))) < Little(Bytes(Pack(b))) <==> Before(a, b)
    ensures Little(Bytes(Pack(a))) == Little(Bytes(Pack(b))) <==> a == b
  {
    LittleOfBytes(Pack(a));
    LittleOfBytes(Pack(b));
  }

  /** The column is read like any other number of the target. */
  lemma {:induction false} ReadAsLittleEndian(column: Row)
    requires |column| == 3
    ensures Little(column) == LittleEndian(column)
  {
    assert column[1..][1..][1..] == [];
    assert LittleEndian(column[1..][1..]) == column[2] as int + 256 * LittleEndian([]);
    assert LittleEndian(column[1..]) == column[1] as int + 256 * LittleEndian(column[1..][1..]);
  }
}
