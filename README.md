# CI3 Seeder library: a Dafny model

This project models the `Seeder` library of the CodeIgniter 3 seeder
generator (`application/libraries/Seeder.php`). Given the rows an existing
table holds, `seed` writes a migration class that re-inserts them. It also
allocates the file's ordinal prefix from the names already in the target
folder. The model covers:

- the three checks `seed` makes before it renders anything, with their
  messages and their order;
- the text of the generated file: the class skeleton, one `$param[] = [ … ];`
  block per row, and one `'column' => value,` line per column of the first row;
- the next-ordinal allocation `latest`, built from `rsort`, the
  Laravel-style helpers `afterLast` and `before`, and PHP's `(int)` cast;
- the folder and connection settings (`setPath`, `setConn`, `getPath`,
  `getConn`);
- the write of the finished file, with `createFile` and `fwrite`.

Modules, one file each:

| file | module | contents |
|---|---|---|
| `options.dfy` | `Options` | `Option` |
| `strings.dfy` | `StringHelpers` | `strrpos`, `strstr`, `afterLast`, `before`, `rtrim` |
| `php_int.dfy` | `PhpInt` | `(int)` of a string and the decimal text of an int |
| `lex_order.dfy` | `LexOrder` | byte-wise string order, `rsort`, greatest element |
| `ordinal.dfy` | `Ordinal` | `latest`, the seeder file name |
| `render.dfy` | `Render` | the generated file text, and the loops that build it |
| `seeder.dfy` | `SeederLib` | validation, path normalisation, the `Seeder` class |

The model's inputs replace the environment:

- **Database.** Whether the table exists is a parameter, and so are the rows
  `result_array` returns (a sequence of rows, each a sequence of
  `column => value` fields, with SQL NULL as `None`).
- **Folder listing.** The names that `glob` and `is_file` produce for the
  target folder form the parameter `existing`.
- **Filesystem.** A `files` map from full path to content, which is a field
  of the `Seeder` object.
- **Platform.** `DIRECTORY_SEPARATOR` and `PHP_EOL` come from a `Platform`
  value (`Unix` or `Windows`).
- **`SEEDER_PATH`.** A constructor argument. A value defined before the
  library loads wins; otherwise it is `APPPATH . 'migrations'`
  (`DefaultSeederPath`).

`seed` is split into `Validate` (source lines 80-102) and `WriteSeeder`
(lines 104-143). `WriteSeeder` renders with the nested loop
(`RenderSeeder`, `AppendBlocks` and `RenderBlock`), then creates the file
(`CreateFile`) and writes body and line terminator to it (`Write`). Each
loop method is proved against the function that specifies its text
(`SeederBody`, `Blocks`, `Block`).

Behaviours of the code that the lemmas exhibit rather than correct:

- `!$name` also rejects the table name `"0"`, so `Falsy` includes it.
- `latest` strips the folder with `afterLast(…, '\\')`. Paths that `glob`
  returns with `/` keep their folder, the cast then sees the leading `/`,
  and every allocation is 1 (`Ordinal.LatestOnUnixPaths`). With
  backslash-separated paths a folder holding only the file just written
  continues from that file's ordinal (`Ordinal.LatestAfterOwnFile`).
- `rsort` compares names as strings, so `9_…` sorts after `10_…`. Once
  ordinals 9 and 10 exist, the next allocation is 10 again
  (`Ordinal.LatestRepeatsTen`).
- `setPath` trims `/` first, then `\`. Normalising twice therefore differs
  from normalising once for a path like `a/\` under `/`
  (`SeederLib.NormalizePathIdempotent`, `SeederLib.NormalizePathKeepsInnerSlash`).
- A `SEEDER_PATH` defined elsewhere with a trailing `/` or `\` is trimmed by
  `setPath()` but not by the fallback in `getPath`, which then has two
  separators (`SeederLib.NormalizeMatchesFallback`).

## Model

| member | source | states |
|---|---|---|
| StringHelpers.LastIndexOf | application/libraries/Seeder.php:216-218 | `strrpos`: when found, the search occurs at the result and at no later index; when not found, it occurs nowhere |
| StringHelpers.FirstIndexOf | application/libraries/Seeder.php:239-241 | the split point of `strstr(…, true)`: when found, the search occurs at the result and at no earlier index; when not found, it occurs nowhere |
| StringHelpers.AfterLast | application/libraries/Seeder.php:210-223 | an empty or absent search leaves the subject unchanged; the result is always a suffix of the subject, and for a non-empty search it contains no occurrence of the search |
| StringHelpers.AfterLastCutsAtLastOccurrence | application/libraries/Seeder.php:216-222 | when the search occurs, it occurs right before the returned suffix, and that is its last occurrence |
| StringHelpers.Before | application/libraries/Seeder.php:233-242 | an empty or absent search leaves the subject unchanged; the result is a prefix; when found, result + search is a prefix of the subject; a non-empty search does not occur in the result |
| StringHelpers.BeforeStopsAtFirstOccurrence | application/libraries/Seeder.php:239-241 | no occurrence of the search starts inside the returned prefix, so the cut is at the first occurrence |
| StringHelpers.RTrim | application/libraries/Seeder.php:283 | `rtrim` with one character: the result is a prefix, does not end in that character, and everything removed is that character |
| PhpInt.ToInt | application/libraries/Seeder.php:262 | defines the `(int)` cast: the value of the leading decimal digits, 0 when there are none |
| PhpInt.LeadingDigits | application/libraries/Seeder.php:262 | the part the `(int)` cast reads: the longest all-digit prefix |
| PhpInt.NatToDecimal | application/libraries/Seeder.php:140 | the text of an int in a file name: non-empty decimal digits with no leading zero |
| PhpInt.DigitsValueOfDecimal | application/libraries/Seeder.php:140 | the value of the decimal text of `n` is `n` |
| PhpInt.ToIntOfDecimal | application/libraries/Seeder.php:262 | `(int)` of the decimal text of `n` followed by a non-digit is `n` |
| PhpInt.ToIntOfNonDigit | application/libraries/Seeder.php:262 | `(int)` of a string that does not start with a digit is 0 |
| LexOrder.LexLe | application/libraries/Seeder.php:259 | defines the string order `rsort` compares names with: character codes left to right, a prefix first |
| LexOrder.LexLeTransitive | application/libraries/Seeder.php:259 | the string order `rsort` uses is transitive |
| LexOrder.LexLeTotal | application/libraries/Seeder.php:259 | any two names are ordered one way or the other |
| LexOrder.LexLeAntisymmetric | application/libraries/Seeder.php:259 | names ordered both ways are equal |
| LexOrder.RSort | application/libraries/Seeder.php:259 | `rsort`: the result is sorted greatest first and is a permutation of the listing |
| LexOrder.MaxLex | application/libraries/Seeder.php:259-262 | reference definition: an element of the listing that no element sorts after |
| LexOrder.RSortHeadIsMax | application/libraries/Seeder.php:259-262 | the first name after `rsort` is the greatest name |
| Ordinal.OrdinalOf | application/libraries/Seeder.php:262 | defines the ordinal read from a listed name: after its last backslash, before its first `_`, cast to int |
| Ordinal.Text | application/libraries/Seeder.php:263-266 | defines the ordinal's text as `001` by default and the decimal of the int otherwise; its contract states the text is non-empty decimal digits |
| Ordinal.Latest | application/libraries/Seeder.php:252-270 | `latest` returns the default `001` exactly when the listing is empty, and otherwise an ordinal of at least 1 |
| Ordinal.LatestReadsSortedHead | application/libraries/Seeder.php:257-263 | for a non-empty listing, the result is one more than the ordinal read from the first name after `rsort` |
| Ordinal.LatestOfOne | application/libraries/Seeder.php:257-263 | a listing of one name continues from that name's ordinal |
| Ordinal.OrdinalOfDigitsName | application/libraries/Seeder.php:262 | a name without backslashes, made of digits, `_` and anything else, records the value of those digits |
| Ordinal.AfterLastBackslash | application/libraries/Seeder.php:262 | behind the last backslash of a folder ending in one lies exactly the base name |
| Ordinal.LatestOfExample | application/libraries/Seeder.php:255-263 | with backslash-separated paths, a folder holding only `003_seeder_<name>.php` gets ordinal 4, written `4` |
| Ordinal.LatestOfExampleOnUnix | application/libraries/Seeder.php:255-263 | with `/`-rooted paths, the same folder gets ordinal 1 |
| Ordinal.TextValue | application/libraries/Seeder.php:262-266 | reading back an ordinal's text gives its number (1 for `001`) |
| Ordinal.OrdinalOfFileName | application/libraries/Seeder.php:140 | a generated file name has no backslash when the table name has none, and records the ordinal it was generated with |
| Ordinal.OrdinalInFolder | application/libraries/Seeder.php:262 | inside a folder ending in a backslash, a base name without one keeps its own ordinal |
| Ordinal.LatestAfterOwnFile | application/libraries/Seeder.php:137-140 | with backslash paths, a folder holding only the file just written with ordinal `n` next gets `n + 1` |
| Ordinal.OrdinalOfUnixPath | application/libraries/Seeder.php:262 | a `/`-rooted path without backslashes casts to 0 |
| Ordinal.LatestOnUnixPaths | application/libraries/Seeder.php:255-263 | with `/`-rooted paths and no backslashes, every non-empty listing gives ordinal 1 |
| Ordinal.LexLeCommonPrefix | application/libraries/Seeder.php:259 | a common folder prefix does not change the order of two names |
| Ordinal.LatestRepeatsTen | application/libraries/Seeder.php:259-263 | with files for ordinals 9 and 10 in one folder, the next ordinal is 10 again |
| Ordinal.FileName | application/libraries/Seeder.php:140 | the file name starts with the ordinal's text and ends with `_seeder_<name>.php` |
| Render.Lookup | application/libraries/Seeder.php:124 | defines `$res[$k]`: the value of the field named `k`, null when there is none |
| Render.ValueLiteral | application/libraries/Seeder.php:124 | defines how a value is written: `null`, or the raw text between single quotes |
| Render.FieldLine | application/libraries/Seeder.php:125 | defines one `'k' => v,` line |
| Render.FieldLines | application/libraries/Seeder.php:123-126 | defines a block's lines: one per key, in key order |
| Render.Block | application/libraries/Seeder.php:122-127 | defines a row's block: the opening line, its field lines, the closing line |
| Render.Blocks | application/libraries/Seeder.php:121-128 | defines the blocks of all rows, one per row, in row order |
| Render.Header | application/libraries/Seeder.php:107-120 | defines the text before the first block: guard line, class, connection field, constructor, start of `up` |
| Render.Footer | application/libraries/Seeder.php:129-134 | defines the text after the last block: batch insert, `down` with its truncate, closing brace |
| Render.SeederBody | application/libraries/Seeder.php:105-134 | defines the whole file body: header, the blocks for the first row's keys, footer |
| Render.Columns | application/libraries/Seeder.php:105 | `array_keys` of the first row: one key per field, in field order |
| Render.LookupFirst | application/libraries/Seeder.php:124 | `$res[$k]` is the value of the first field named `k` |
| Render.LookupMissing | application/libraries/Seeder.php:124 | a key the row lacks reads as null |
| Render.ValueLiteralIsNullExactly | application/libraries/Seeder.php:124 | a value is written `null` exactly when it is null |
| Render.ValueLiteralRoundTrip | application/libraries/Seeder.php:124 | a written value reads back as the value itself: the quotes add nothing and the raw text is kept |
| Render.BlocksAppend | application/libraries/Seeder.php:121-128 | the blocks of `a + b` are the blocks of `a` followed by those of `b` |
| Render.BlockAt | application/libraries/Seeder.php:121-128 | row `i` contributes exactly one block, between the blocks of the rows before and after it |
| Render.FieldLinesAppend | application/libraries/Seeder.php:123-126 | the lines for the keys of `a + b` are those for `a` followed by those for `b` |
| Render.FieldLineAt | application/libraries/Seeder.php:123-126 | key `j` contributes exactly one line, holding key `j` and the row's value for it, between the lines of the keys before and after it |
| Render.RenderBlock | application/libraries/Seeder.php:122-127 | the inner loop yields the row's block: the opening line, one line per key in key order, the closing line |
| Render.AppendBlocks | application/libraries/Seeder.php:121-128 | the outer loop appends the blocks of all rows, in row order |
| Render.RenderSeeder | application/libraries/Seeder.php:104-134 | the built `$print` is the header, the blocks for the first row's keys, and the footer |
| SeederLib.Platform.Sep | application/libraries/Seeder.php:284 | defines `DIRECTORY_SEPARATOR`: `/` on Unix, `\` on Windows |
| SeederLib.Platform.Eol | application/libraries/Seeder.php:143 | defines `PHP_EOL`: a line feed on Unix, carriage return and line feed on Windows |
| SeederLib.Falsy | application/libraries/Seeder.php:80 | defines `!$name`: null, the empty string and `"0"` |
| SeederLib.TableNotFound | application/libraries/Seeder.php:90 | the missing-table message quotes the table name right after `TABLE ` |
| SeederLib.NoRecords | application/libraries/Seeder.php:100 | the empty-table message quotes the table name right after `NO RECORDS IN TABLE ` |
| SeederLib.Validate | application/libraries/Seeder.php:80-102 | validation passes exactly when the name is truthy, the table exists and has rows; otherwise the first failing check decides the message, in the order name, table, rows, and the status is false |
| SeederLib.NormalizePath | application/libraries/Seeder.php:281-284 | the stored folder ends with the separator, the trimmed part is a prefix of the argument that does not end in `\`, and everything removed is `/` or `\`; for an argument without backslashes the trimmed part does not end in `/` either |
| SeederLib.DefaultSeederPath | application/libraries/Seeder.php:5 | the default `SEEDER_PATH` is non-empty and ends in neither `/` nor `\` |
| SeederLib.NormalizeMatchesFallback | application/libraries/Seeder.php:279-284 | normalising `SEEDER_PATH` (what `setPath()` stores) gives `SEEDER_PATH` plus the separator (what `getPath` falls back to) exactly when it does not end in `/` or `\` |
| SeederLib.NormalizePathIdempotent | application/libraries/Seeder.php:283-284 | normalising twice equals normalising once, except under `/` when the kept part ends in `/` |
| SeederLib.NormalizeTwiceBackslash | application/libraries/Seeder.php:283-284 | under `\`, normalising is idempotent |
| SeederLib.NormalizeTwiceSlash | application/libraries/Seeder.php:283-284 | under `/`, normalising is idempotent exactly when the kept part does not end in `/` |
| SeederLib.NormalizePathKeepsInnerSlash | application/libraries/Seeder.php:283-284 | `a/\` normalises to `a//` under `/` |
| SeederLib.Seeder.constructor | application/libraries/Seeder.php:63-69 | a new library object has no connection, folder or open file set |
| SeederLib.Seeder.SetPath | application/libraries/Seeder.php:279-285 | `setPath` stores the normalised folder and keeps the object valid |
| SeederLib.Seeder.SetPathDefault | application/libraries/Seeder.php:279-285 | `setPath()` with its default argument stores the normalised `SEEDER_PATH`; `getPath` then returns the folder it falls back to exactly when `SEEDER_PATH` does not end in `/` or `\` |
| SeederLib.Seeder.SetConn | application/libraries/Seeder.php:294-297 | `setConn` stores the connection name |
| SeederLib.Seeder.SetConnDefault | application/libraries/Seeder.php:294-297 | `setConn()` with its default argument makes `getConn` return `default` |
| SeederLib.Seeder.GetPath | application/libraries/Seeder.php:304-307 | the set folder, or `SEEDER_PATH` plus a separator when unset; on a valid object it ends with the separator |
| SeederLib.Seeder.GetConn | application/libraries/Seeder.php:314-317 | the set connection, or `default` when unset |
| SeederLib.Seeder.CreateFile | application/libraries/Seeder.php:159-176 | any file at `dir + name` is replaced by an empty one, which becomes the open file |
| SeederLib.Seeder.Write | application/libraries/Seeder.php:143 | `fwrite` appends the text to the open file and changes nothing else |
| SeederLib.Seeder.WriteSeeder | application/libraries/Seeder.php:104-143 | the file `<count>_seeder_<name>.php` in the folder from `getPath` now holds the rendered body plus one line terminator, and is the open file |
| SeederLib.Seeder.Seed | application/libraries/Seeder.php:78-149 | a failed check returns its response and leaves files and file pointer alone; otherwise the response is `SEEDER SUCCESS.` and only the file named from `latest` holds the body plus a line terminator |

## Left out

- `application/controllers/App.php` is not part of this model. It only dispatches CLI commands and echoes the responses. Its `controller` and `model` generators are not in the library.
- Database access (`get_instance`, `load->database`, `table_exists` and the query builder) is replaced by the parameters `tableExists` and `rows`.
- Seed: the query reads `trim($name)` while the check and the messages use `$name`. The model gives the rows directly, so that difference does not appear.
- Seed: values of any type other than string or null, such as PHP ints, are modelled as their text.
- The folder listing (`glob`, `is_file`) is the parameter `existing`. Nothing ties it to the `files` map.
- `folderPermission` (`mkdir`, `chmod`, `umask`) is left out, as are the `fopen` failure and `exit` in `createFile`. They are side effects on permissions or end the process.
- PhpInt.ToInt: models the `(int)` cast as leading decimal digits, else 0. It does not model leading whitespace, a sign, exponents, or int overflow to float.
- LexOrder.LexLe: models `rsort` as byte-wise string order. It does not model `SORT_REGULAR`'s numeric comparison of two numeric strings. Full paths normally are not numeric strings.
- Ordinal.Latest: `rsort` is modelled as a pure function, because the sorted array is local to `latest` and only its first element is read.
- Render.RenderBlock: the nested `foreach` is split into two methods, `RenderBlock` for the inner loop and `AppendBlocks` for the outer. It appends the same pieces in the same order.
- Render.Lookup: a row is a sequence of fields. If a column name repeats, the model reads the first one. PHP arrays cannot hold duplicate keys.
- Strings are sequences of characters; PHP's byte strings and their encodings are not modelled.
- SeederLib.Validate: the table name is a string or null. Other PHP types are not modelled.
- SeederLib.Seeder.SetPath: a null argument is not modelled; `SetPathDefault` covers the default argument.
- SeederLib.Seeder.SetConn: a null argument is not modelled; `SetConnDefault` covers the default argument.
