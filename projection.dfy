/**
 * The read side of the service: stored records become GitOpsConfigDto values without the
 * username, token and host. The repository's answers are parameters.
 */
module Projection {
  import opened Wrappers
  import opened GitOpsTypes

  /** The response built from a stored record; the fields it does not set keep Go's zero values. */
  function ToDto(model: GitOpsConfig): (dto: GitOpsConfigDto)
    ensures dto.username == "" && dto.token == "" && dto.host == ""
    ensures dto.userId == model.createdBy && dto.id == model.id
  {
    GitOpsConfigDto(
      id := model.id,
      provider := model.provider,
      username := "",
      token := "",
      gitLabGroupId := model.gitLabGroupId,
      gitHubOrgId := model.gitHubOrgId,
      host := "",
      active := model.active,
      userId := model.createdBy)
  }

  /** A response reveals nothing of the record's username, token, host or last updater: records
      that differ only there give the same response. */
  lemma ProjectionIgnoresSecrets(model: GitOpsConfig, username: string, token: string, host: string, updatedBy: int32)
    ensures ToDto(model.(username := username, token := token, host := host, updatedBy := updatedBy)) == ToDto(model)
  {
  }

  /** The properties every response shares: no secrets, and the creator as its user id. */
  predicate Redacted(dto: GitOpsConfigDto, model: GitOpsConfig) {
    && dto.username == "" && dto.token == "" && dto.host == ""
    && dto.userId == model.createdBy
    && dto.id == model.id && dto.provider == model.provider && dto.active == model.active
    && dto.gitHubOrgId == model.gitHubOrgId && dto.gitLabGroupId == model.gitLabGroupId
  }

  /** GetGitOpsConfigById, given the repository's answer for the id. */
  function GetGitOpsConfigById(found: Result<GitOpsConfig, Error>): (r: Result<GitOpsConfigDto, Error>)
    ensures r.Success? <==> found.Success?
    ensures found.Failure? ==> r.error == found.error
    ensures r.Success? ==> Redacted(r.value, found.value)
  {
    match found
    case Failure(e) => Failure(e)
    case Success(model) => Success(ToDto(model))
  }

  /** GetGitOpsConfigByProvider, given the repository's answer for the provider. */
  function GetGitOpsConfigByProvider(found: Result<GitOpsConfig, Error>): (r: Result<GitOpsConfigDto, Error>)
    ensures r.Success? <==> found.Success?
    ensures found.Failure? ==> r.error == found.error
    ensures r.Success? ==> Redacted(r.value, found.value)
  {
    match found
    case Failure(e) => Failure(e)
    case Success(model) => Success(ToDto(model))
  }

  /** GetAllGitOpsConfig: one response per stored record, in the repository's order. */
  method GetAllGitOpsConfig(models: Result<seq<GitOpsConfig>, Error>) returns (r: Result<seq<GitOpsConfigDto>, Error>)
    ensures r.Success? <==> models.Success?
    ensures models.Failure? ==> r.error == models.error
    ensures r.Success? ==> |r.value| == |models.value|
    ensures r.Success? ==> forall i :: 0 <= i < |r.value| ==> Redacted(r.value[i], models.value[i])
  {
    if models.Failure? {
      return Failure(models.error);
    }
    var configs: seq<GitOpsConfigDto> := [];
    var i := 0;
    while i < |models.value|
      invariant 0 <= i <= |models.value|
      invariant |configs| == i
      invariant forall k :: 0 <= k < i ==> Redacted(configs[k], models.value[k])
    {
      configs := configs + [ToDto(models.value[i])];
      i := i + 1;
    }
    return Success(configs);
  }
}
