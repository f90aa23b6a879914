/** The values that the verifier's request handlers and its database exchange. */
module VerifierTypes {
  import opened Wrappers

  datatype Platform = Telegram | Discord

  const SUPPORTED_PLATFORMS: seq<Platform> := [Telegram, Discord]

  function Other(p: Platform): Platform {
    if p == Telegram then Discord else Telegram
  }

  newtype byte = b: int | 0 <= b < 256

  /** The public key of a credential holder. */
  datatype CredentialHolderId = CredentialHolderId(publicKey: seq<byte>)

  datatype ContractAddress = ContractAddress(index: nat, subindex: nat)

  datatype FullName = FullName(firstName: string, lastName: string)

  /** The attribute values and atomic proofs that the handlers look into; every
      other kind of proof or statement is one opaque alternative. */
  datatype Attribute = StringAttribute(text: string) | NumericAttribute(n: nat) | TimestampAttribute(ms: nat)

  datatype AtomicProof = RevealAttributeProof(attribute: Attribute) | OtherProof

  datatype AtomicStatement<Tag> = RevealAttributeStatement(tag: Tag) | OtherStatement

  datatype CredentialProof =
    | Web3Id(contract: ContractAddress, holder: CredentialHolderId,
             proofs: seq<(AtomicStatement<string>, AtomicProof)>)
    | Account(accountProofs: seq<(AtomicStatement<byte>, AtomicProof)>)

  datatype Presentation = Presentation(context: seq<byte>, verifiableCredential: seq<CredentialProof>)

  /** One account of a verification, with the credential that vouches for it. */
  datatype PlatformEntry = PlatformEntry(id: string, credId: CredentialHolderId, username: string)

  /** What the handler asks the database to store: at most one account for each
      platform, the presentation, and possibly a name. */
  datatype VerificationsEntry = VerificationsEntry(
    telegram: Option<PlatformEntry>,
    discord: Option<PlatformEntry>,
    presentation: Presentation,
    fullName: Option<FullName>)
  {
    function Slot(p: Platform): Option<PlatformEntry> {
      match p
      case Telegram => telegram
      case Discord => discord
    }

    function WithSlot(p: Platform, e: PlatformEntry): VerificationsEntry {
      match p
      case Telegram => this.(telegram := Some(e))
      case Discord => this.(discord := Some(e))
    }
  }

  datatype DbAccount = DbAccount(platform: Platform, id: string, username: string)

  /** The answer to a lookup: the account asked for comes first. */
  datatype DbVerification = DbVerification(
    accounts: seq<DbAccount>,
    fullName: Option<FullName>,
    presentation: Presentation)
}
