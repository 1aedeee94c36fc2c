/** Rights, capability records and the payload a seal covers. */
module Capabilities {
  import opened Types

  datatype Right =
    | Read | Write | Execute | Create | Delete
    | Send | Receive | Delegate | Revoke | Declassify

  type Rights = set<Right>

  type Key = seq<U8>

  datatype Payload = Payload(
    holder: PluginId, target: ResourceId, rights: Rights, parent: Option<CapId>, epoch: U64)

  /** A seal is either a MAC, represented by what it was computed from, or bytes of unknown origin. */
  datatype Tag = Mac(key: Key, payload: Payload) | Bytes(bytes: seq<U8>)

  datatype CapabilityError = InvalidHolder | EmptyRights | Revoked

  datatype Capability = Capability(
    id: CapId, holder: PluginId, target: ResourceId, rights: Rights,
    parent: Option<CapId>, epoch: U64, valid: bool, signature: Tag)
  {
    static function New(id: CapId, p: Payload, signature: Tag): Result<Capability, CapabilityError> {
      if p.holder == 0 then Err(InvalidHolder)
      else if p.rights == {} then Err(EmptyRights)
      else Ok(Capability(id, p.holder, p.target, p.rights, p.parent, p.epoch, true, signature))
    }

    function GetPayload(): Payload {
      Payload(holder, target, rights, parent, epoch)
    }

    function Revoked(): Capability {
      this.(valid := false)
    }
  }
}
