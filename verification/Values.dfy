/** Cell values as the database driver returns them, one constructor per Python type the code
    distinguishes. Types the proofs treat as atoms are identified by their canonical text. */
module Values {

  type byte = b: int | 0 <= b < 256

  datatype Value =
    | Null
    | Str(text: string)
    | Bool(flag: bool)
    | Int(number: int)
    | Float(digits: string, finite: bool)
    | Decimal(digits: string, finite: bool)
    | Date(iso: string)
    | DateTime(iso: string)
    | Time(iso: string)
    | TimeDelta(microseconds: int)
    | Uuid(text: string)
    | Bytes(data: seq<byte>)
    | ByteBuffer(data: seq<byte>)
    | Foreign(typeName: string)

  type Row = seq<Value>

  function Nulls(width: nat): Row {
    seq(width, _ => Null)
  }
}
