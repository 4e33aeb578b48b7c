/**
 * The text of the generated seeder migration: a fixed class skeleton around
 * one `$param[] = [ … ];` block per table row.
 */
module Render {
  import opened Options

  /** One column of a fetched row; `None` is SQL NULL. */
  datatype Field = Field(column: string, value: Option<string>)

  /** A row as `result_array` returns it: columns in select order. */
  type Row = seq<Field>

  /** The column names of a row, in order (`array_keys`). */
  function Columns(row: Row): (ks: seq<string>)
    ensures |ks| == |row|
    ensures forall i :: 0 <= i < |row| ==> ks[i] == row[i].column
  {
    if row == [] then [] else [row[0].column] + Columns(row[1..])
  }

  /** `$row[$k]`: the value of column `k`; a missing column reads as null. */
  function Lookup(row: Row, k: string): (v: Option<string>)
  {
    if row == [] then None
    else if row[0].column == k then row[0].value
    else Lookup(row[1..], k)
  }

  /** How a value is written into the generated PHP: `null`, or the raw text between single quotes. */
  function ValueLiteral(v: Option<string>): string
  {
    match v
    case None => "null"
    case Some(s) => "'" + s + "'"
  }

  /** One `'column' => value,` line. */
  function FieldLine(k: string, v: Option<string>, eol: string): string
  {
    "            '" + k + "' => " + ValueLiteral(v) + "," + eol
  }

  /** The concatenation of a list of text pieces. */
  function Concat(parts: seq<string>): string
  {
    if parts == [] then "" else Concat(parts[..|parts| - 1]) + parts[|parts| - 1]
  }

  /** The lines of one row block, one per key, in key order. */
  function FieldLines(row: Row, keys: seq<string>, eol: string): string
  {
    Concat(seq(|keys|, j requires 0 <= j < |keys| => FieldLine(keys[j], Lookup(row, keys[j]), eol)))
  }

  const BlockOpen := "        $param[] = ["
  const BlockClose := "        ];"

  /** The `$param[] = [ … ];` block of one row. */
  function Block(row: Row, keys: seq<string>, eol: string): string
  {
    (BlockOpen + eol) + FieldLines(row, keys, eol) + (BlockClose + eol)
  }

  /** The blocks of all rows: one per row, in row order. */
  function Blocks(rows: seq<Row>, keys: seq<string>, eol: string): string
  {
    Concat(seq(|rows|, i requires 0 <= i < |rows| => Block(rows[i], keys, eol)))
  }

  /** Everything before the first row block: the guard line, the class, its connection field, the constructor and the start of `up`. */
  function Header(name: string, conn: string, eol: string): string
  {
    Concat([
      "<?php defined('BASEPATH') OR exit('No direct script access allowed');", eol, eol,
      "Class Migration_Seeder_", name, " extends CI_Migration {", eol,
      "    /**", eol,
      "     * Private function db connection.", eol,
      "     * ", eol,
      "     * @param object", eol,
      "     */", eol,
      "    private $", conn, ";", eol, eol,
      "    public function __construct() {", eol,
      "        parent::__construct();", eol,
      "        $this->", conn, " = $this->load->database('", conn, "', TRUE);", eol,
      "    }", eol, eol,
      "    public function up() {", eol,
      "        $param = [];", eol, eol])
  }

  /** Everything after the last row block: the batch insert, `down` with its truncate, and the closing brace. */
  function Footer(name: string, conn: string, eol: string): string
  {
    Concat([
      eol, "        $this->", conn, "->insert_batch('", name, "', $param);", eol,
      "    }", eol, eol,
      "    public function down() {", eol,
      "        $this->db->truncate('", name, "');", eol,
      "    }", eol,
      "}"])
  }

  /** The whole seeder file body; the keys are those of the first row. */
  function SeederBody(name: string, conn: string, rows: seq<Row>, eol: string): string
    requires rows != []
  {
    Header(name, conn, eol) + Blocks(rows, Columns(rows[0]), eol) + Footer(name, conn, eol)
  }

  /** `$row[$k]` is the value of the first field named `k`. */
  lemma {:induction false} LookupFirst(row: Row, k: string, i: nat)
    requires i < |row| && row[i].column == k
    requires forall j :: 0 <= j < i ==> row[j].column != k
    ensures Lookup(row, k) == row[i].value
  {
    if i > 0 {
      LookupFirst(row[1..], k, i - 1);
    }
  }

  /** `$row[$k]` reads as null when no field is named `k`. */
  lemma {:induction false} LookupMissing(row: Row, k: string)
    requires k !in Columns(row)
    ensures Lookup(row, k) == None
  {
    if row != [] {
      assert Columns(row) == [row[0].column] + Columns(row[1..]);
      LookupMissing(row[1..], k);
    }
  }

  /** Which value literals denote which values: `null`, or the text between the outer quotes. */
  function ParseValueLiteral(t: string): Option<Option<string>>
  {
    if t == "null" then Some(None)
    else if |t| >= 2 && t[0] == '\'' && t[|t| - 1] == '\'' then Some(Some(t[1..|t| - 1]))
    else None
  }

  /** A value is written as `null` exactly when it is null. */
  lemma {:induction false} ValueLiteralIsNullExactly(v: Option<string>)
    ensures ValueLiteral(v) == "null" <==> v == None
  {
    if v.Some? { assert ValueLiteral(v)[0] == '\''; }
  }

  /** A value literal reads back as the value it was written from: quoting adds nothing and drops nothing. */
  lemma {:induction false} ValueLiteralRoundTrip(v: Option<string>)
    ensures ParseValueLiteral(ValueLiteral(v)) == Some(v)
  {
    match v
    case None =>
    case Some(s) =>
      var t := ValueLiteral(v);
      assert t[0] == '\'';
      assert t[1..|t| - 1] == s;
  }

  /** Concatenating `a + b` concatenates `a`, then `b`. */
  lemma {:induction false} ConcatAppend(a: seq<string>, b: seq<string>)
    ensures Concat(a + b) == Concat(a) + Concat(b)
    decreases |b|
  {
    if b == [] {
      assert a + b == a;
    } else {
      var b' := b[..|b| - 1];
      assert (a + b)[..|a + b| - 1] == a + b';
      assert (a + b)[|a + b| - 1] == b[|b| - 1];
      ConcatAppend(a, b');
    }
  }

  /** Rendering the rows of `a + b` renders those of `a`, then those of `b`. */
  lemma {:induction false} BlocksAppend(a: seq<Row>, b: seq<Row>, keys: seq<string>, eol: string)
    ensures Blocks(a + b, keys, eol) == Blocks(a, keys, eol) + Blocks(b, keys, eol)
  {
    var pa := seq(|a|, j requires 0 <= j < |a| => Block(a[j], keys, eol));
    var pb := seq(|b|, j requires 0 <= j < |b| => Block(b[j], keys, eol));
    assert seq(|a + b|, j requires 0 <= j < |a + b| => Block((a + b)[j], keys, eol)) == pa + pb;
    ConcatAppend(pa, pb);
  }

  /** Row `i` contributes exactly one block, between the blocks of the rows before it and those after it. */
  lemma {:induction false} BlockAt(rows: seq<Row>, i: nat, keys: seq<string>, eol: string)
    requires i < |rows|
    ensures Blocks(rows, keys, eol) ==
      Blocks(rows[..i], keys, eol) + Block(rows[i], keys, eol) + Blocks(rows[i + 1..], keys, eol)
  {
    var tail := [rows[i]] + rows[i + 1..];
    assert rows == rows[..i] + tail;
    BlocksAppend(rows[..i], tail, keys, eol);
    BlocksAppend([rows[i]], rows[i + 1..], keys, eol);
    BlocksOne(rows[i], keys, eol);
  }

  lemma {:induction false} BlocksOne(row: Row, keys: seq<string>, eol: string)
    ensures Blocks([row], keys, eol) == Block(row, keys, eol)
  {
    var one := seq(1, j requires 0 <= j < 1 => Block([row][j], keys, eol));
    assert one == [Block(row, keys, eol)];
    assert one[..0] == [];
    assert Concat(one) == Concat([]) + Block(row, keys, eol);
  }

  /** The lines for the keys of `a + b` are those for `a`, then those for `b`. */
  lemma {:induction false} FieldLinesAppend(row: Row, a: seq<string>, b: seq<string>, eol: string)
    ensures FieldLines(row, a + b, eol) == FieldLines(row, a, eol) + FieldLines(row, b, eol)
  {
    var pa := seq(|a|, i requires 0 <= i < |a| => FieldLine(a[i], Lookup(row, a[i]), eol));
    var pb := seq(|b|, i requires 0 <= i < |b| => FieldLine(b[i], Lookup(row, b[i]), eol));
    assert seq(|a + b|, i requires 0 <= i < |a + b| => FieldLine((a + b)[i], Lookup(row, (a + b)[i]), eol)) == pa + pb;
    ConcatAppend(pa, pb);
  }

  lemma {:induction false} FieldLinesOne(row: Row, k: string, eol: string)
    ensures FieldLines(row, [k], eol) == FieldLine(k, Lookup(row, k), eol)
  {
    var one := seq(1, i requires 0 <= i < 1 => FieldLine([k][i], Lookup(row, [k][i]), eol));
    assert one == [FieldLine(k, Lookup(row, k), eol)];
    assert one[..0] == [];
    assert Concat(one) == Concat([]) + FieldLine(k, Lookup(row, k), eol);
  }

  /** Key `j` contributes exactly one line, naming key `j` and the row's value for it, after the lines of the keys before it. */
  lemma {:induction false} FieldLineAt(row: Row, keys: seq<string>, j: nat, eol: string)
    requires j < |keys|
    ensures FieldLines(row, keys, eol) ==
      FieldLines(row, keys[..j], eol) + FieldLine(keys[j], Lookup(row, keys[j]), eol) + FieldLines(row, keys[j + 1..], eol)
  {
    var tail := [keys[j]] + keys[j + 1..];
    assert keys == keys[..j] + tail;
    FieldLinesAppend(row, keys[..j], tail, eol);
    FieldLinesAppend(row, [keys[j]], keys[j + 1..], eol);
    FieldLinesOne(row, keys[j], eol);
  }

  /** One more key adds its line at the end. */
  lemma {:induction false} FieldLinesSnoc(row: Row, keys: seq<string>, j: nat, eol: string)
    requires j < |keys|
    ensures FieldLines(row, keys[..j + 1], eol) ==
      FieldLines(row, keys[..j], eol) + FieldLine(keys[j], Lookup(row, keys[j]), eol)
  {
    var parts := seq(j + 1, i requires 0 <= i < j + 1 => FieldLine(keys[..j + 1][i], Lookup(row, keys[..j + 1][i]), eol));
    assert parts[..j] == seq(j, i requires 0 <= i < j => FieldLine(keys[..j][i], Lookup(row, keys[..j][i]), eol));
  }

  /** One more row adds its block at the end. */
  lemma {:induction false} BlocksSnoc(rows: seq<Row>, i: nat, keys: seq<string>, eol: string)
    requires i < |rows|
    ensures Blocks(rows[..i + 1], keys, eol) == Blocks(rows[..i], keys, eol) + Block(rows[i], keys, eol)
  {
    var parts := seq(i + 1, j requires 0 <= j < i + 1 => Block(rows[..i + 1][j], keys, eol));
    assert parts[..i] == seq(i, j requires 0 <= j < i => Block(rows[..i][j], keys, eol));
  }

  /** The inner loop of `seed`: the lines of one row block, appended key by key. */
  method RenderBlock(row: Row, keys: seq<string>, eol: string) returns (block: string)
    ensures block == Block(row, keys, eol)
  {
    ghost var open := BlockOpen + eol;
    block := BlockOpen + eol;
    var j := 0;
    while j < |keys|
      invariant 0 <= j <= |keys|
      invariant block == open + FieldLines(row, keys[..j], eol)
    {
      var line := FieldLine(keys[j], Lookup(row, keys[j]), eol);
      FieldLinesSnoc(row, keys, j, eol);
      block := block + line;
      j := j + 1;
    }
    assert keys[..j] == keys;
    block := block + (BlockClose + eol);
  }

  /** The outer loop of `seed`: appends the block of every row to `prefix`, in row order. */
  method AppendBlocks(prefix: string, rows: seq<Row>, keys: seq<string>, eol: string) returns (body: string)
    ensures body == prefix + Blocks(rows, keys, eol)
  {
    body := prefix;
    assert Blocks(rows[..0], keys, eol) == "";
    var i := 0;
    while i < |rows|
      invariant 0 <= i <= |rows|
      invariant body == prefix + Blocks(rows[..i], keys, eol)
    {
      var block := RenderBlock(rows[i], keys, eol);
      BlocksSnoc(rows, i, keys, eol);
      body := body + block;
      i := i + 1;
    }
    assert rows[..i] == rows;
  }

  /** Builds the body as `seed` builds `$print`: the header, every row's block, the footer. */
  method RenderSeeder(name: string, conn: string, rows: seq<Row>, eol: string) returns (body: string)
    requires rows != []
    ensures body == SeederBody(name, conn, rows, eol)
  {
    var keys := Columns(rows[0]);
    body := Header(name, conn, eol);
    body := AppendBlocks(body, rows, keys, eol);
    body := body + Footer(name, conn, eol);
  }
}
