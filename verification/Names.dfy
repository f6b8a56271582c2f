/** The condition functions and actions that the modelled catalogs mention. */
module Names {

  datatype Id =
    // Condition functions on the context.
    | RepoIs(repo: string)
    | IsPaired
    | IsRehearse
    | InfraPairingFound
    | PreflightOk
    | BootstrapWanted
    | SprayProxyRequired
    | MultiPlatformRequired
    // Condition functions on the changed files of the e2e repository.
    | PkgChanged
    | MageChanged
    | CmdChanged
    | NothingChanged
    | TektonChanged
    | ReleasePipelinesTestsChanged
    | BuildOrTemplatesTestsOnly
    | BuildTemplatesDependent
    | BuildConst
    | DemoConfigsOnly
    | DemoTests
    | ReleaseTests
    | ReleaseHelpersOnly
    | IntegrationConst
    | IntegrationTests
    | EcTests
    // Changes to one component of infra-deployments.
    | ComponentChanged(component: string)
    // Actions.
    | Settings(repo: string)
    | SetPairing
    | InstallGinkgo
    | InstallKonflux
    | RegisterSprayProxy
    | SetupMultiPlatform
    | ExecuteTests
    | ExecuteDefaultTests
    | ExecuteAllButUpgrade
    | ExecuteCatalogPaired
    | ExecuteCatalog
    | ExecuteInfraDefault
    | AddLabel(lbl: string)
    | FocusOn(rule: Id)
    // Any other function.
    | Other(name: string)
}
