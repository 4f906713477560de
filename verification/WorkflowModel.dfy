/** The stored form of an environment's workflow and of an application's policies. */
module WorkflowModel {

  /** What a comparison decides about a step or a policy. */
  datatype State = Keep | New | Update | Delete | Modify

  /** The step types the reconciliation tells apart; `Plain` is any other, such as a suspension. */
  datatype StepType = Deploy | Deploy2Env | DeployCloudResource | Plain(typeName: string)

  datatype PolicyType = Topology | EnvBinding | OtherPolicy(policyTypeName: string)

  /** A step's properties: the policies a deploy step names, the policy and environment an
      environment step names, and everything else. */
  datatype Properties =
    | Unreadable
    | Json(policies: seq<string>, policy: string, env: string, rest: string)

  datatype WorkflowStep = WorkflowStep(name: string, stepType: StepType, properties: Properties)

  datatype EnvConfig = EnvConfig(envName: string, cluster: string, namespace: string)

  datatype PolicySpec =
    | UnreadableSpec
    | TopologySpec(clusters: seq<string>, topologyNamespace: string)
    | EnvBindingSpec(envs: seq<EnvConfig>)

  datatype ApplicationPolicy = ApplicationPolicy(name: string, policyType: PolicyType, spec: PolicySpec)
}
