/** The users file: `insert_or_update_user` appends rows to a CSV file,
    writing the header row first when the file does not exist yet. A file is
    modelled by its rows; `None` stands for a file that does not exist. */
module Store {
  import opened Values

  /** The column names `user_to_csv` writes, one per record field. */
  const Headers: seq<string> := [
    "用户id", "昵称", "性别", "生日", "所在地", "学习经历", "公司", "注册时间", "阳光信用",
    "微博数", "粉丝数", "关注数", "简介", "主页", "头像", "高清头像",
    "微博等级", "会员等级", "是否认证", "认证类型", "认证信息"]

  /** The header row as written. */
  function HeaderRow(headers: seq<string>): (r: Row)
    ensures |r| == |headers|
    ensures forall i :: 0 <= i < |headers| ==> r[i] == Str(headers[i])
  {
    seq(|headers|, i requires 0 <= i < |headers| => Str(headers[i]))
  }

  /** The rows `insert_or_update_user` writes: the first data row gains an
      empty trailing column, the others are written as they are. */
  function DataRows(resultData: seq<Row>): (rows: seq<Row>)
    requires |resultData| > 0
    ensures |rows| == |resultData|
    ensures rows[0] == resultData[0] + [Str("")]
    ensures rows[1..] == resultData[1..]
  {
    [resultData[0] + [Str("")]] + resultData[1..]
  }

  /** `insert_or_update_user(headers, result_data, file_path)`: the file
      afterwards, or `None` when `result_data` is empty and indexing its
      first row raises before the file is opened. */
  function InsertOrUpdateUser(headers: seq<string>, resultData: seq<Row>, file: Option<seq<Row>>): (r: Option<seq<Row>>)
    ensures r.Some? <==> |resultData| > 0
    ensures r.Some? && file.Some? ==> r.value == file.value + DataRows(resultData)
    ensures r.Some? && file.None? ==> r.value == [HeaderRow(headers)] + DataRows(resultData)
  {
    if |resultData| == 0 then None
    else
      var existing := if file.Some? then file.value else [HeaderRow(headers)];
      Some(existing + DataRows(resultData))
  }

  /** The file after one record row after another has been written. */
  function WriteAll(headers: seq<string>, rows: seq<Row>, file: Option<seq<Row>>): Option<seq<Row>>
    decreases |rows|
  {
    if rows == [] then file
    else
      var next := InsertOrUpdateUser(headers, [rows[0]], file);
      WriteAll(headers, rows[1..], next)
  }

  lemma WriteAllCons(headers: seq<string>, row: Row, rows: seq<Row>, file: Option<seq<Row>>)
    ensures WriteAll(headers, [row] + rows, file) == WriteAll(headers, rows, InsertOrUpdateUser(headers, [row], file))
  {
    assert ([row] + rows)[1..] == rows;
  }

  /** Each record row with the trailing empty column. */
  function Padded(rows: seq<Row>): (p: seq<Row>)
    ensures |p| == |rows|
    ensures forall i :: 0 <= i < |rows| ==> p[i] == rows[i] + [Str("")]
  {
    seq(|rows|, i requires 0 <= i < |rows| => rows[i] + [Str("")])
  }

  lemma PaddedCons(rows: seq<Row>)
    requires |rows| > 0
    ensures Padded(rows) == [rows[0] + [Str("")]] + Padded(rows[1..])
  {
  }

  lemma AppendAssoc<T>(a: seq<T>, b: seq<T>, c: seq<T>)
    ensures (a + b) + c == a + (b + c)
  {
  }

  /** Writing one record row: a new file gets the header row first. */
  lemma WriteOne(headers: seq<string>, row: Row, file: Option<seq<Row>>)
    ensures InsertOrUpdateUser(headers, [row], file)
         == Some((if file.Some? then file.value else [HeaderRow(headers)]) + [row + [Str("")]])
  {
    assert DataRows([row]) == [row + [Str("")]] by {
      assert [row][1..] == [];
    }
  }

  /** Writing rows one at a time to an existing file appends them, padded,
      in order, and never writes the header again. */
  lemma {:induction false} WriteAllAppends(headers: seq<string>, rows: seq<Row>, file: seq<Row>)
    ensures WriteAll(headers, rows, Some(file)) == Some(file + Padded(rows))
    decreases |rows|
  {
    if rows != [] {
      var next := file + [rows[0] + [Str("")]];
      WriteOne(headers, rows[0], Some(file));
      WriteAllAppends(headers, rows[1..], next);
      PaddedCons(rows);
      AppendAssoc(file, [rows[0] + [Str("")]], Padded(rows[1..]));
    } else {
      assert file + Padded(rows) == file;
    }
  }

  /** Starting without a file, the header row is written exactly once, at
      the top, followed by the record rows in order. */
  lemma WriteAllFromScratch(headers: seq<string>, rows: seq<Row>)
    requires |rows| > 0
    ensures WriteAll(headers, rows, None) == Some([HeaderRow(headers)] + Padded(rows))
  {
    var first := [HeaderRow(headers)] + [rows[0] + [Str("")]];
    WriteOne(headers, rows[0], None);
    WriteAllAppends(headers, rows[1..], first);
    PaddedCons(rows);
    AppendAssoc([HeaderRow(headers)], [rows[0] + [Str("")]], Padded(rows[1..]));
  }
}
