/** Limits, request payloads and reply packets of include/system/protocol.h. */
module Protocol {
  import opened Bytes
  import opened Envelope

  const NAME_LEN := 32
  const EMAIL_LEN := 64
  const TEXT_LEN := 1024
  const DESC_LEN := 64
  const CODE_LEN := 7

  const MAX_PARTICIPANTS := 10
  const MAX_MEMBERS := 50
  /** Rows in the summary arrays the handlers keep on their stack. */
  const LIST_CAP := 50
  /** Rows storage_get_history asks for, and the newline behind each of its lines. */
  const HISTORY_CAP := 50
  const LINE_END: byte := 10

  const PRIVATE := 0
  const GROUP := 1

  const MEMBER := 0
  const ADMIN := 1

  /** One constructor per request the dispatcher knows, and Unknown for the rest. */
  datatype Request =
    | Register(email: string, username: string, password: string)
    | Login(loginEmail: string, loginPassword: string)
    | UpdateUser(newUsername: string, newPassword: string)
    | SendText(textConv: nat, text: Text)
    | ReqHistory(historyConv: nat)
    | CreateConv(ctype: nat, name: string, desc: string, count: nat, listed: seq<nat>)
    | ReqConversations
    | UpdateGroup(groupConv: nat, newName: string, newDesc: string)
    | AddMember(addConv: nat, memberCode: string)
    | ReqMembers(membersConv: nat)
    | KickMember(kickConv: nat, kicked: nat)
    | DeleteGroup(deletedConv: nat)
    | ReqContacts
    | AddByCode(code: string)
    | GetRequests
    | DecideRequest(target: nat, accepted: bool)
    | Unknown

  datatype ContactSummary = ContactSummary(uid: nat, username: string, isOnline: int)

  datatype ConversationSummary =
    ConversationSummary(convId: nat, ctype: nat, name: string, desc: string, unread: nat, myRole: nat)

  datatype MemberSummary = MemberSummary(uid: nat, username: string, role: nat)

  datatype Packet =
    | RegisterSuccess
    | RegisterFail
    | LoginSuccess(uid: nat, username: string, email: string, friendCode: string)
    | LoginFail
    | UpdateSuccess
    | History(lines: seq<byte>)
    | RouteText(conv: nat, sender: nat, senderName: string, text: Text)
    | ConvCreated(newConv: nat)
    | Conversations(convs: seq<ConversationSummary>)
    | MemberAdded
    | Members(members: seq<MemberSummary>)
    | Contacts(contacts: seq<ContactSummary>)
    | AddReqSent
    | AddFail
    | Requests(requests: seq<ContactSummary>)

  /** A packet written to the connection with descriptor fd. */
  datatype Out = Out(fd: int, pkt: Packet)

  /** The payload array always has MAX_PARTICIPANTS slots; only the counted ones are read. */
  function ListedUids(r: Request): (uids: seq<nat>)
    requires r.CreateConv?
    ensures |uids| <= MAX_PARTICIPANTS && uids <= r.listed
  {
    var n := if r.count > MAX_PARTICIPANTS then MAX_PARTICIPANTS else r.count;
    r.listed[..if n <= |r.listed| then n else |r.listed|]
  }
}
