/**
 * The two local-registry helpers the dependency code relies on: finding the registry
 * port of a Kubernetes service, and whether the local registry is switched off.
 */
module Registry {
  import opened Wrappers

  /** A Kubernetes service port, with the fields a caller reads. */
  datatype ServicePort = ServicePort(name: string, protocol: string, port: int, targetPort: int, nodePort: int)

  /** A Kubernetes service: its `spec.ports`, in order. */
  datatype Service = Service(ports: seq<ServicePort>)

  /** The `localRegistry` section of the config. */
  datatype LocalRegistryConfig = LocalRegistryConfig(disable: bool)

  /** The config, with the one section the check reads; `None` stands for a nil section. */
  datatype Config = Config(localRegistry: Option<LocalRegistryConfig>)

  /** The port name that marks the registry port. */
  const RegistryPortName: string := "registry"

  /** `IsLocalRegistryDisabled`: only an explicit `disable` turns the local registry off. */
  function IsLocalRegistryDisabled(config: Config): (r: bool)
    ensures config.localRegistry.None? ==> !r
    ensures config.localRegistry.Some? ==> (r <==> config.localRegistry.value.disable)
  {
    config.localRegistry.Some? && config.localRegistry.value.disable
  }

  /** The index of the first port called `name`. */
  function FirstNamed(ports: seq<ServicePort>, name: string): (r: Option<nat>)
    ensures r.Some? ==> r.value < |ports| && ports[r.value].name == name
    ensures r.Some? ==> forall j :: 0 <= j < r.value ==> ports[j].name != name
    ensures r.None? <==> forall j :: 0 <= j < |ports| ==> ports[j].name != name
  {
    if ports == [] then None
    else if ports[0].name == name then Some(0)
    else match FirstNamed(ports[1..], name)
      case Some(i) => Some(i + 1)
      case None => None
  }

  /**
   * `GetServicePort`: the first port named "registry", in `spec.ports` order; none when
   * no port has that name.
   */
  function GetServicePort(service: Service): (r: Option<ServicePort>)
    ensures r.None? <==> forall j :: 0 <= j < |service.ports| ==> service.ports[j].name != RegistryPortName
    ensures r.Some? ==> r.value.name == RegistryPortName
    ensures r.Some? ==>
      exists i :: 0 <= i < |service.ports| && service.ports[i] == r.value
        && forall j :: 0 <= j < i ==> service.ports[j].name != RegistryPortName
  {
    match FirstNamed(service.ports, RegistryPortName)
    case Some(i) => Some(service.ports[i])
    case None => None
  }

  /** The first match is stable: ports listed after it never change the answer. */
  lemma {:induction false} FirstNamedAppend(ports: seq<ServicePort>, more: seq<ServicePort>, name: string)
    requires FirstNamed(ports, name).Some?
    ensures FirstNamed(ports + more, name) == FirstNamed(ports, name)
  {
    if ports[0].name != name {
      assert (ports + more)[1..] == ports[1..] + more;
      FirstNamedAppend(ports[1..], more, name);
    }
  }

  /** Ports added after a registry port do not change which port is returned. */
  lemma GetServicePortAppend(service: Service, more: seq<ServicePort>)
    requires GetServicePort(service).Some?
    ensures GetServicePort(Service(service.ports + more)) == GetServicePort(service)
  {
    FirstNamedAppend(service.ports, more, RegistryPortName);
    var i := FirstNamed(service.ports, RegistryPortName).value;
    assert (service.ports + more)[i] == service.ports[i];
  }

  /** A port not named "registry" in front of the list does not change which port is returned. */
  lemma GetServicePortSkips(p: ServicePort, service: Service)
    requires p.name != RegistryPortName
    ensures GetServicePort(Service([p] + service.ports)) == GetServicePort(service)
  {
    assert ([p] + service.ports)[1..] == service.ports;
  }
}
