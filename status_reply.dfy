/**
 * The first lines of getPrintStatus's reply: a title, the state label, and
 * for a printing printer the file name. The rest of the reply (progress,
 * remaining time, layers, filament) is floating point and is not modelled.
 */
module StatusReply {
  import opened Formatting

  const Title := "------🖨️ 打印状态------\n"
  const StateLine := "打印机状态: "
  const FileLine := "文件名: "

  /** The reply's head as the code builds it: the printing branch assigns instead of appending. */
  function StatusHeadAsWritten(state: string, filename: string): string {
    var msg := Title + StateLine + StateLabel(state) + "\n";
    if state == "printing" then FileLine + filename + "\n" else msg
  }

  /** For a printing printer the reply as written loses its title and the 打印中 label. */
  lemma AsWrittenDropsStateLine(filename: string)
    ensures !(Title <= StatusHeadAsWritten("printing", filename))
    ensures StatusHeadAsWritten("printing", filename) == FileLine + filename + "\n"
  {
    assert StatusHeadAsWritten("printing", filename)[0] != Title[0];
  }

  /** The reply's head with the file line appended, as the other lines of the branch are. */
  function StatusHead(state: string, filename: string): (r: string)
    ensures Title + StateLine + StateLabel(state) + "\n" <= r
    ensures state == "printing" ==>
      var tail := FileLine + filename + "\n";
      |tail| <= |r| && r[|r| - |tail|..] == tail
    ensures state != "printing" ==> r == StatusHeadAsWritten(state, filename)
  {
    var msg := Title + StateLine + StateLabel(state) + "\n";
    if state == "printing" then msg + FileLine + filename + "\n" else msg
  }

  /** Every state, printing included, is reported by its label after the title. */
  lemma StatusHeadShowsLabel(filename: string)
    ensures Title + StateLine + "打印中\n" <= StatusHead("printing", filename)
    ensures Title + StateLine + "待机\n" == StatusHead("standby", filename)
    ensures Title + StateLine + "待机\n" == StatusHead("ready", filename)
  {
  }
}
