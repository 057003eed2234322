/** Standing publication settings of a repository, and which branch a release goes to under them. */
module RepositoryPolicies {
  import opened Wrappers

  datatype PublicationMode = ScheduledCreation | ImmediateAvailability

  datatype TargetIntegration = DirectPush | PullRequest

  datatype Branch = Branch(name: string)

  datatype PolicyError =
    | UnexpectedDevelopmentTarget
    | MissingDevelopmentTarget
    | TargetsMustDiffer
    | PullRequestNeedsDevelopmentBranch

  datatype RepositoryPolicy = RepositoryPolicy(
    mode: PublicationMode, target: Branch, development: Option<Branch>, integration: TargetIntegration)
  {
    function WithTargetIntegration(wanted: TargetIntegration): Result<RepositoryPolicy, PolicyError> {
      if wanted.PullRequest? && !mode.ImmediateAvailability? then Err(PullRequestNeedsDevelopmentBranch)
      else Ok(this.(integration := wanted))
    }

    /** What every policy in use satisfies. */
    predicate Sound() {
      && (mode.ImmediateAvailability? <==> development.Some?)
      && development != Some(target)
      && (integration.PullRequest? ==> development.Some?)
    }
  }

  function NewPolicy(mode: PublicationMode, target: Branch, development: Option<Branch>)
    : Result<RepositoryPolicy, PolicyError>
  {
    if mode.ScheduledCreation? && development.Some? then Err(UnexpectedDevelopmentTarget)
    else if mode.ImmediateAvailability? && development.None? then Err(MissingDevelopmentTarget)
    else if development == Some(target) then Err(TargetsMustDiffer)
    else Ok(RepositoryPolicy(mode, target, development, DirectPush))
  }

  /** Building a policy and choosing its integration yields exactly the sound policies. */
  lemma BuiltExactlySound(policy: RepositoryPolicy)
    ensures policy.Sound() <==>
      && NewPolicy(policy.mode, policy.target, policy.development).Ok?
      && NewPolicy(policy.mode, policy.target, policy.development).value.WithTargetIntegration(policy.integration)
         == Ok(policy)
  {
  }

  /** A refused policy is told what contradicts in it, in the order the settings are looked at. */
  lemma RefusalsNameTheContradiction(
    mode: PublicationMode, target: Branch, development: Option<Branch>, integration: TargetIntegration, error: PolicyError)
    ensures NewPolicy(mode, target, development) == Err(error) <==>
      match error
      case UnexpectedDevelopmentTarget => mode == ScheduledCreation && development != None
      case MissingDevelopmentTarget => mode == ImmediateAvailability && development == None
      case TargetsMustDiffer => mode == ImmediateAvailability && development == Some(target)
      case PullRequestNeedsDevelopmentBranch => false
    ensures NewPolicy(mode, target, development).Ok? ==>
      (NewPolicy(mode, target, development).value.WithTargetIntegration(integration) == Err(error)
       <==> error == PullRequestNeedsDevelopmentBranch && integration == PullRequest && development == None)
  {
  }

  /** The branch one release pushes to, what it is built on while absent, and whether it may create it. */
  datatype Publication = Publication(branch: Branch, base: Branch, createIfAbsent: bool)

  /** Work goes to the development branch once, and to the target after that. */
  function Choose(policy: RepositoryPolicy, reachedDevelopment: bool): Publication {
    match policy.mode
    case ImmediateAvailability =>
      if policy.development.Some? && !reachedDevelopment then
        Publication(policy.development.value, policy.target, true)
      else
        Publication(policy.target, policy.target, false)
    case ScheduledCreation => Publication(policy.target, policy.target, false)
  }

  /** The integration of work already on the development branch is left to a pull request. */
  predicate Withheld(policy: RepositoryPolicy, reachedDevelopment: bool) {
    policy.integration.PullRequest? && policy.development.Some? && reachedDevelopment
  }

  /** What is not withheld under a pull-request policy never goes to the target branch. */
  lemma WithholdingProtectsTarget(policy: RepositoryPolicy, reachedDevelopment: bool)
    requires policy.Sound()
    ensures policy.integration.PullRequest? && !Withheld(policy, reachedDevelopment)
            ==> Choose(policy, reachedDevelopment).branch != policy.target
    ensures Choose(policy, reachedDevelopment).branch == policy.target
            <==> policy.mode.ScheduledCreation? || reachedDevelopment
    ensures Choose(policy, reachedDevelopment).base == policy.target
    ensures Choose(policy, reachedDevelopment).createIfAbsent <==> Choose(policy, reachedDevelopment).branch != policy.target
  {
  }
}
