/** Messages as the draft passes see them. */
module Mail {
  import opened Wrappers

  /** Gmail labels apart from the drafted marker, which the mailbox tracks; "" stands for a missing id. */
  datatype Message = Message(
    id: string, thread: string, labels: set<string>, ageDays: int,
    toMe: bool, sent: bool, draft: bool, date: Option<int>)

  ghost predicate DistinctIds(messages: seq<Message>) {
    forall i, j :: 0 <= i < j < |messages| ==> messages[i].id != messages[j].id
  }
}
