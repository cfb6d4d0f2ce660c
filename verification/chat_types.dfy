/** The records the labelling tool works on: loaded chat messages and the label
    values stored on them. */
module ChatTypes {

  datatype Option<+T> = None | Some(value: T)

  datatype Result<+T, +E> = Success(value: T) | Failure(error: E)

  /** A stored label value. The source stores `string[] | number | string`:
      a choice-set selection, a slider number, or a string that is free text,
      the empty "unset" sentinel, or one of the override tokens below. */
  datatype LabelValue = Choices(items: seq<string>) | Num(n: int) | Str(s: string)

  /** Override tokens a slider category commits instead of its number. */
  const NotApplicable: string := "N/A"
  const DontKnow: string := "D/K"

  /** The value every label starts with after a load. */
  const Unset: LabelValue := Str("")

  /** The sender whose messages use the advertiser category list; every other
      sender uses the bot list. */
  const AdvertiserSender: string := "advertiser"

  /** One chat message as loaded from a CSV row, with its label map. */
  datatype Message = Message(
    advertiserId: string,
    conversationId: string,
    accountSegment: string,
    messageTime: string,
    websiteImage: string,
    sender: string,
    messageText: string,
    labels: map<string, LabelValue>)

  /** The ordered category names that apply to a message from `sender`. */
  function CategoriesFor(sender: string, advCats: seq<string>, botCats: seq<string>): (r: seq<string>)
    ensures sender == AdvertiserSender ==> r == advCats
    ensures sender != AdvertiserSender ==> r == botCats
  {
    if sender == AdvertiserSender then advCats else botCats
  }
}
