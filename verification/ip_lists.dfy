/**
 The `ip_lists` method: membership of the client's address in the
 configured pass list and block list (`src/botdetection/_ip_lists.py`).
 */
module IpLists {
  import opened IpAddress

  /** The guarded test of the loop body: same version, and inside. */
  predicate Matches(ip: IP, net: Network) {
    ip.version == net.version && InNetwork(ip, net)
  }

  /** Some entry of the list matches the address. */
  predicate AnyMatch(ip: IP, nets: seq<Network>) {
    exists i | 0 <= i < |nets| :: Matches(ip, nets[i])
  }

  /** `nets[k]` is the first entry (in list order) that matches. */
  predicate FirstMatchAt(ip: IP, nets: seq<Network>, k: nat) {
    k < |nets| && Matches(ip, nets[k]) && forall j | 0 <= j < k :: !Matches(ip, nets[j])
  }

  /** The log message of a lookup, kept structured; `Text` renders it. */
  datatype ListMessage =
    | IpMatches(net: Network, listName: string)
    | NotAMember(listName: string)

  /** The `(bool, str)` pair a lookup returns; `contactHint` records the
      sentence `block_ip` appends on a match. */
  datatype ListResult = ListResult(matched: bool, message: ListMessage, contactHint: bool)

  const CONTACT_HINT := " To remove IP from list, please contact the maintainer of the service."

  /** `_ip_is_subnet_of_member_in_list`: scan the list in order and report the
      first network of the address's version that contains it. */
  function IpIsSubnetOfMemberInList(ip: IP, nets: seq<Network>, listName: string): (r: ListResult)
    ensures r.matched <==> AnyMatch(ip, nets)
    ensures r.matched ==> r.message.IpMatches? && r.message.listName == listName
                          && exists k: nat :: FirstMatchAt(ip, nets, k) && r.message.net == nets[k]
    ensures !r.matched ==> r.message == NotAMember(listName)
    ensures !r.contactHint
  {
    if |nets| == 0 then ListResult(false, NotAMember(listName), false)
    else if Matches(ip, nets[0]) then
      assert FirstMatchAt(ip, nets, 0);
      ListResult(true, IpMatches(nets[0], listName), false)
    else
      var r := IpIsSubnetOfMemberInList(ip, nets[1..], listName);
      assert forall i | 1 <= i < |nets| :: nets[i] == nets[1..][i - 1];
      if r.matched then
        var k: nat :| FirstMatchAt(ip, nets[1..], k) && r.message.net == nets[1..][k];
        assert FirstMatchAt(ip, nets, k + 1);
        r
      else
        assert !AnyMatch(ip, nets) by {
          forall i | 0 <= i < |nets| ensures !Matches(ip, nets[i]) {
            if i > 0 { assert nets[i] == nets[1..][i - 1]; }
          }
        }
        r
  }

  /** `pass_ip`: the generic lookup on the pass list. */
  function PassIp(ip: IP, passList: seq<Network>): (r: ListResult)
    ensures r.matched <==> AnyMatch(ip, passList)
    ensures r == IpIsSubnetOfMemberInList(ip, passList, "pass_ip")
  {
    IpIsSubnetOfMemberInList(ip, passList, "pass_ip")
  }

  /** `block_ip`: the generic lookup on the block list, with the contact
      hint appended to the message exactly when the address matched. */
  function BlockIp(ip: IP, blockList: seq<Network>): (r: ListResult)
    ensures r.matched <==> AnyMatch(ip, blockList)
    ensures r.message == IpIsSubnetOfMemberInList(ip, blockList, "block_ip").message
    ensures r.contactHint <==> r.matched
  {
    var r := IpIsSubnetOfMemberInList(ip, blockList, "block_ip");
    if r.matched then r.(contactHint := true) else r
  }

  /** An address never matches a network of the other IP version, whatever its bits. */
  lemma OtherVersionNeverMatches(ip: IP, nets: seq<Network>, listName: string)
    requires forall i | 0 <= i < |nets| :: nets[i].version != ip.version
    ensures !IpIsSubnetOfMemberInList(ip, nets, listName).matched
  {
  }

  /** An empty list never matches. */
  lemma EmptyListNeverMatches(ip: IP, listName: string)
    ensures IpIsSubnetOfMemberInList(ip, [], listName) == ListResult(false, NotAMember(listName), false)
  {
  }

  /** The verdict is existential membership, so reordering (or repeating)
      list entries does not change it. */
  lemma VerdictIgnoresOrder(ip: IP, a: seq<Network>, b: seq<Network>, listName: string)
    requires forall n :: n in a <==> n in b
    ensures IpIsSubnetOfMemberInList(ip, a, listName).matched == IpIsSubnetOfMemberInList(ip, b, listName).matched
  {
    if AnyMatch(ip, a) {
      var i :| 0 <= i < |a| && Matches(ip, a[i]);
      assert a[i] in b;
    }
    if AnyMatch(ip, b) {
      var i :| 0 <= i < |b| && Matches(ip, b[i]);
      assert b[i] in a;
    }
  }

  /** The loop's explicit version test adds nothing: `in` already answers
      false across versions, so the guarded test is containment itself. */
  lemma GuardIsRedundant(ip: IP, net: Network)
    ensures Matches(ip, net) <==> InNetwork(ip, net)
    ensures ip.version != net.version ==> !Matches(ip, net)
  {
  }

  /** Python's `.compressed` text of a network; the model takes it as given. */
  type Render = Network -> string

  /** The hit message: the matching network and the list it is on. */
  function MatchText(net: Network, listName: string, compressed: Render): string {
    "IP matches " + compressed(net) + " in " + listName + "."
  }

  /** The miss message as written: the f-string contains a stray literal `f`
      in front of the list name. */
  function NotMemberTextAsWritten(listName: string): string {
    "IP is not a member of an item in the f" + listName + " list"
  }

  /** The miss message as intended: the list name stands as its own word. */
  function NotMemberText(listName: string): (r: string)
    ensures EndsWithListName(r, listName)
  {
    var r := "IP is not a member of an item in the " + listName + " list";
    assert r[|r| - |listName| - 6..] == " " + listName + " list";
    r
  }

  /** `r` ends with ` <listName> list`, the list named as a separate word. */
  predicate EndsWithListName(r: string, listName: string) {
    |r| >= |listName| + 6 && r[|r| - |listName| - 6..] == " " + listName + " list"
  }

  /** The written miss message never names the list as a word: the character
      before the list name is `f`, so the pass list reads as `fpass_ip`. */
  lemma NotMemberTextAsWrittenMisnamesList(listName: string)
    ensures !EndsWithListName(NotMemberTextAsWritten(listName), listName)
  {
    var r := NotMemberTextAsWritten(listName);
    var k := |r| - |listName| - 6;
    assert r[k] == 'f';
    assert (" " + listName + " list")[0] == ' ';
  }

  /** The message text the rest of the model uses: as written, except that a
      miss renders the corrected `NotMemberText`. The gate renders the text
      only on a block-list hit, so the two renderings never differ in what a
      client receives. */
  function Text(r: ListResult, compressed: Render): string {
    var m := match r.message
      case IpMatches(net, name) => MatchText(net, name, compressed)
      case NotAMember(name) => NotMemberText(name);
    m + (if r.contactHint then CONTACT_HINT else "")
  }

  /** On a match the text names the first matching network, and the block
      list text carries the contact hint only then. */
  lemma BlockTextNamesFirstMatch(ip: IP, blockList: seq<Network>, compressed: Render)
    requires AnyMatch(ip, blockList)
    ensures exists k: nat :: FirstMatchAt(ip, blockList, k)
                        && Text(BlockIp(ip, blockList), compressed)
                           == MatchText(blockList[k], "block_ip", compressed) + CONTACT_HINT
  {
    var r := IpIsSubnetOfMemberInList(ip, blockList, "block_ip");
    var k: nat :| FirstMatchAt(ip, blockList, k) && r.message.net == blockList[k];
    assert Text(BlockIp(ip, blockList), compressed)
           == MatchText(blockList[k], "block_ip", compressed) + CONTACT_HINT;
  }
}
