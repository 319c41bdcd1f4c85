/** The records, constants and errors of the GitOps credential service. */
module GitOpsTypes {
  import opened Wrappers

  /** Go's int32, the type of the user ids in the audit fields. */
  newtype int32 = x: int | -0x8000_0000 <= x < 0x8000_0000

  /** The name of the secret the service provisions in the Argo CD namespace. */
  const GitOpsSecretName := "devtron-gitops-secret"

  /** The config map key whose value is the YAML list of repository credentials. */
  const CredentialsKey := "repository.credentials"

  const UsernameKey := "username"
  const PasswordKey := "password"

  /** How many passes the optimistic retry loop makes at most. */
  const MaxAttempts: nat := 3

  const CreateDbFailedMessage := "gitops config failed to create in db"
  const UpdateMissingMessage := "gitops config update failed, does not exist"
  const UpdateDbFailedMessage := "gitops config failed to update in db"
  /** The text of the error returned when every pass failed to write (spelling as in the service). */
  const RetriesExhaustedMessage := "resouce version not matched with config map attemped 3 times"

  /** KeyDto: one key of a named secret object. */
  datatype KeyRef = KeyRef(name: string, key: string)

  /**
   * RepositoryCredentialsDto: one entry of the mirrored list. The two references are
   * pointers in the service, so an entry decoded from the config map may lack them.
   */
  datatype RepoCredential = RepoCredential(url: string, usernameSecret: Option<KeyRef>, passwordSecret: Option<KeyRef>)

  /** GitOpsConfigDto: the request and response shape of the service. */
  datatype GitOpsConfigDto = GitOpsConfigDto(
    id: int,
    provider: string,
    username: string,
    token: string,
    gitLabGroupId: string,
    gitHubOrgId: string,
    host: string,
    active: bool,
    userId: int32)

  /** The stored credential record (timestamps left out). */
  datatype GitOpsConfig = GitOpsConfig(
    id: int,
    provider: string,
    username: string,
    token: string,
    gitHubOrgId: string,
    gitLabGroupId: string,
    host: string,
    active: bool,
    createdBy: int32,
    updatedBy: int32)

  datatype Error =
    | ApiError(message: string)    // util.ApiError, whose internal and user messages agree
    | External(message: string)    // an error of a collaborator, returned unchanged
    | Malformed                    // the credentials text does not decode; the service panics
    | NilDataWrite                 // assignment into the nil data map of a config map without data; the service panics
    | RetriesExhausted             // every pass failed to write the config map (RetriesExhaustedMessage)
}
